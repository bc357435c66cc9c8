/** What a pair of pipes guarantees about the messages that go through it. */
module PipeFlow {
  import opened Bytes
  import opened YPipes
  import opened Pipes
  import opened PipePairs
  import opened Arith

  // ------------------------------------------------- nothing lost, reordered

  /** A stream that ends with a complete message. */
  predicate Complete(s: seq<Item>) {
    s != [] ==> !Incomplete(s[|s| - 1])
  }

  /**
   The reader of a queue gets the complete messages written to it, in order, and never a part of
   one that is not complete.
   */
  ghost predicate InOrder(s: Side, writer: End) {
    && (writer.hasOut ==> s.inq.part == s.open_)
    && (forall i :: 0 <= i < |s.open_| ==> Incomplete(s.open_[i]))
    && Complete(s.whole)
    && s.got <= s.whole
    && (s.end.alive ==> s.got + s.inq.pub + s.inq.pend == s.whole)
  }

  /** What an action does to the inbound queue: it may take the first item, or free the queue. */
  lemma InboundEffect(p: Pair, a: Action)
    requires Enabled(p, a)
    ensures var q, q' := p.me.inq, Act(p, a).me.inq;
            && q'.pend == q.pend && q'.part == q.part
            && Got(p, a) <= q.pub
            && (Act(p, a).me.end.alive ==> q.pub == Got(p, a) + q'.pub)
  {
    match a
    case DoRead =>
    case DoCheckRead =>
    case DoProcess =>
    case DoTerminate(delay) => TerminateInbound(LocalOf(p), delay);
    case _ =>
  }

  lemma TerminateInbound(l: Local, delay: bool)
    ensures TerminateOf(l, delay).inq == l.inq
  {
  }

  lemma TakeKeepsOrder(s: Side, s': Side, writer: End, g: seq<Item>)
    requires InOrder(s, writer) && s.end.alive
    requires s'.whole == s.whole && s'.open_ == s.open_ && s'.got == s.got + g
    requires s'.inq.pend == s.inq.pend && s'.inq.part == s.inq.part && g <= s.inq.pub
    requires s'.end.alive ==> s.inq.pub == g + s'.inq.pub
    ensures InOrder(s', writer)
  {
  }

  lemma ReaderKeepsOrder(p: Pair, a: Action)
    requires Enabled(p, a) && InOrder(p.me, p.peer.end)
    ensures InOrder(Act(p, a).me, p.peer.end)
  {
    hide Effect, InOrder, Got;
    InboundEffect(p, a);
    TakeKeepsOrder(p.me, Act(p, a).me, p.peer.end, Got(p, a));
  }

  /** What an action can do to the outbound queue. */
  ghost predicate Publishes(q: Queue<Item>, q': Queue<Item>) {
    q'.pub + q'.pend == q.pub + q.pend
  }

  lemma FlushPublishes(l: Local)
    ensures Publishes(l.outq, FlushOf(l).outq) && FlushOf(l).outq.part == l.outq.part && FlushOf(l).end == l.end
  {
  }

  lemma CloseAppends(l: Local)
    requires l.end.hasOut
    ensures var q, q' := l.outq, CloseOf(l).outq;
            q'.pub + q'.pend == q.pub + q.pend + [Delimiter] && q'.part == []
  {
  }

  lemma TerminateStream(l: Local, delay: bool)
    ensures var q, l' := l.outq, TerminateOf(l, delay);
            && l'.end.hasOut == (l.end.hasOut && (l.end.state == WaitingForDelimiter ==> delay))
            && if Closes(l.end, delay)
               then l'.outq.pub + l'.outq.pend == q.pub + q.pend + [Delimiter] && l'.outq.part == []
               else Publishes(q, l'.outq) && (l'.end.hasOut ==> l'.outq.part == q.part)
  {
    var l1 := l.(end := l.end.(delay := delay));
    if l.end.state !in {TermReqSent1, TermReqSent2, TermAckSent} {
      var l2 := StopOf(l1);
      if l2.end.hasOut {
        CloseAppends(l2);
      }
    }
  }

  /** What is added to the queue of complete messages is what is added to the stream. */
  ghost predicate Appends(p: Pair, a: Action, more: seq<Item>)
    requires Enabled(p, a)
  {
    var s, p' := p.peer, Act(p, a);
    && p'.peer.whole == s.whole + more
    && p'.peer.inq.pub + p'.peer.inq.pend == s.inq.pub + s.inq.pend + more
    && Complete(more)
    && (p'.me.end.hasOut ==> p'.peer.inq.part == p'.peer.open_)
    && (forall i :: 0 <= i < |p'.peer.open_| ==> Incomplete(p'.peer.open_[i]))
  }

  lemma WriteAppends(p: Pair, x: Item)
    requires Enabled(p, DoWrite(x)) && InOrder(p.peer, p.me.end) && Terminating(p)
    ensures Appends(p, DoWrite(x), if Writable(p.me.end) && !Incomplete(x) then p.peer.open_ + [x] else [])
  {
    var q := p.peer.inq;
    if Writable(p.me.end) {
      assert p.me.end.hasOut;
      assert q.pub + (q.pend + q.part + [x]) == q.pub + q.pend + (p.peer.open_ + [x]);
      assert p.peer.whole + p.peer.open_ + [x] == p.peer.whole + (p.peer.open_ + [x]);
    }
  }

  lemma OtherAppends(p: Pair, a: Action)
    requires Enabled(p, a) && InOrder(p.peer, p.me.end) && !a.DoWrite?
    ensures Appends(p, a, if a.DoTerminate? && Closes(p.me.end, a.delay) then [Delimiter] else [])
  {
    var l := LocalOf(p);
    match a
    case DoFlush => FlushPublishes(l);
    case DoTerminate(delay) =>
      hide TerminateOf;
      TerminateStream(l, delay);
    case DoRead => ReadPublishes(l);
    case DoCheckRead => ReadPublishes(l);
    case _ =>
  }

  /** Reading leaves the outbound queue alone, except that the last read of all may roll it back. */
  lemma ReadPublishes(l: Local)
    ensures Publishes(l.outq, ReadOf(l).outq) && (ReadOf(l).end.hasOut ==> l.end.hasOut && ReadOf(l).outq == l.outq)
    ensures Publishes(l.outq, CheckReadOf(l).outq)
    ensures CheckReadOf(l).end.hasOut ==> l.end.hasOut && CheckReadOf(l).outq == l.outq
  {
  }

  lemma AppendKeepsOrder(s: Side, s': Side, writer: End, writer': End, more: seq<Item>)
    requires InOrder(s, writer) && s'.end == s.end && s'.got == s.got && s'.whole == s.whole + more && Complete(more)
    requires s'.inq.pub + s'.inq.pend == s.inq.pub + s.inq.pend + more
    requires writer'.hasOut ==> s'.inq.part == s'.open_
    requires forall i :: 0 <= i < |s'.open_| ==> Incomplete(s'.open_[i])
    ensures InOrder(s', writer')
  {
    if s.end.alive {
      var q, q' := s.inq, s'.inq;
      assert s.got + q'.pub + q'.pend == s.got + (q'.pub + q'.pend);
      assert s.got + (q.pub + q.pend + more) == s.got + q.pub + q.pend + more;
    }
  }

  lemma WriterKeepsOrder(p: Pair, a: Action)
    requires Enabled(p, a) && InOrder(p.peer, p.me.end) && Terminating(p)
    ensures InOrder(Act(p, a).peer, Act(p, a).me.end)
  {
    hide Effect, Stream, InOrder, Complete, Terminating;
    var more := [];
    if a.DoWrite? {
      more := if Writable(p.me.end) && !Incomplete(a.x) then p.peer.open_ + [a.x] else [];
      WriteAppends(p, a.x);
    } else {
      more := if a.DoTerminate? && Closes(p.me.end, a.delay) then [Delimiter] else [];
      OtherAppends(p, a);
    }
    AppendKeepsOrder(p.peer, Act(p, a).peer, p.me.end, Act(p, a).me.end, more);
  }

  ghost predicate Ordered(p: Pair) {
    Terminating(p) && InOrder(p.me, p.peer.end) && InOrder(p.peer, p.me.end)
  }

  lemma OrderedKept(p: Pair, e: Event)
    requires Ordered(p) && Possible(p, e)
    ensures Ordered(Step(p, e))
  {
    var q := if e.other then Flip(p) else p;
    TerminatingKept(p, e);
    ReaderKeepsOrder(q, e.action);
    WriterKeepsOrder(q, e.action);
  }

  // ------------------------------------------------------ delayed termination

  /** The user of the other end neither terminates it nor gives up on pending messages. */
  predicate Patient(events: seq<Event>) {
    forall i :: 0 <= i < |events| && events[i].other ==>
      !events[i].action.DoTerminate? && !events[i].action.DoSetNoDelay?
  }

  /** Complete messages, closed by the delimiter or not. */
  ghost predicate ClosedStream(s: seq<Item>, closed: bool) {
    if closed then s != [] && s[|s| - 1] == Delimiter && Complete(s[..|s| - 1]) && Delimiter !in s[..|s| - 1]
    else Delimiter !in s
  }

  ghost predicate Delaying(p: Pair) {
    && Ordered(p)
    && p.peer.end.delay
    && p.peer.end.state in {Active, DelimiterReceived, WaitingForDelimiter, TermAckSent}
    && p.me.end.state in {Active, TermReqSent1}
    && ClosedStream(p.me.whole, false)
    && ClosedStream(p.peer.whole, p.me.end.state == TermReqSent1)
    && (p.peer.end.state in {DelimiterReceived, TermAckSent} ==> Delimiter in p.peer.got)
  }

  /** Nothing but `terminate` changes the state of an end that is never asked to terminate. */
  lemma WriterState(p: Pair, a: Action)
    requires Enabled(p, a) && p.me.end.state in {Active, TermReqSent1}
    requires Delimiter !in p.me.inq.pub
    requires a.DoProcess? ==> p.me.sent[p.me.seen] != PipeTerm
    ensures Act(p, a).me.end.state == if a.DoTerminate? then TermReqSent1 else p.me.end.state
  {
    assert p.me.inq.pub != [] ==> p.me.inq.pub[0] != Delimiter;
    if a.DoTerminate? {
      TerminateState(LocalOf(p), a.delay);
    }
  }

  lemma TerminateState(l: Local, delay: bool)
    requires l.end.state in {Active, TermReqSent1}
    ensures TerminateOf(l, delay).end.state == TermReqSent1
  {
  }

  /** Its outbound stream is closed by `terminate` and by nothing else, and takes nothing after that. */
  lemma WriterStream(p: Pair, a: Action)
    requires Enabled(p, a) && p.me.end.state in {Active, TermReqSent1} && p.me.end.hasOut
    requires ClosedStream(p.peer.whole, p.me.end.state == TermReqSent1) && Complete(p.peer.whole)
    requires forall i :: 0 <= i < |p.peer.open_| ==> Incomplete(p.peer.open_[i])
    ensures ClosedStream(Stream(p, a).0, a.DoTerminate? || p.me.end.state == TermReqSent1)
  {
  }

  /** The impatient end: it may do anything. */
  lemma WriterDelays(p: Pair, a: Action)
    requires Delaying(p) && Enabled(p, a) && Ordered(Act(p, a))
    ensures Delaying(Act(p, a))
  {
    hide Effect, Stream, ClosedStream, Complete;
    if a.DoProcess? {
      NextExpected(p);
    }
    NoDelimiter(p.me, p.peer.end);
    WriterState(p, a);
    Causality(p);
    WriterStream(p, a);
  }

  lemma NoDelimiter(s: Side, writer: End)
    requires InOrder(s, writer) && s.end.alive && ClosedStream(s.whole, false)
    ensures Delimiter !in s.inq.pub
  {
  }

  /** An end whose user is patient acknowledges only after it has read the delimiter. */
  lemma ReaderState(p: Pair, a: Action)
    requires Enabled(p, a) && !a.DoTerminate? && !a.DoSetNoDelay?
    requires p.me.end.delay && p.me.end.state in {Active, DelimiterReceived, WaitingForDelimiter, TermAckSent}
    requires a.DoProcess? ==> Expects(p.me.end, p.me.sent[p.me.seen])
    ensures var e := Act(p, a).me.end;
            && e.delay && e.state in {Active, DelimiterReceived, WaitingForDelimiter, TermAckSent}
            && (e.state in {DelimiterReceived, TermAckSent} ==>
                  p.me.end.state in {DelimiterReceived, TermAckSent} || Got(p, a) == [Delimiter])
  {
  }

  /** Nor does it close its own stream. */
  lemma ReaderStream(p: Pair, a: Action)
    requires Enabled(p, a) && !a.DoTerminate? && ClosedStream(p.peer.whole, false)
    requires forall i :: 0 <= i < |p.peer.open_| ==> Incomplete(p.peer.open_[i])
    ensures ClosedStream(Stream(p, a).0, false)
  {
  }

  /** The patient end. */
  lemma ReaderDelays(p: Pair, a: Action)
    requires Delaying(p) && Enabled(Flip(p), a) && Ordered(Flip(Act(Flip(p), a)))
    requires !a.DoTerminate? && !a.DoSetNoDelay?
    ensures Delaying(Flip(Act(Flip(p), a)))
  {
    hide Effect, Stream, ClosedStream, Complete, Got;
    var q := Flip(p);
    if a.DoProcess? {
      NextExpected(q);
    }
    ReaderState(q, a);
    ReaderStream(q, a);
  }

  lemma {:induction false} DelayingAlways(p: Pair, events: seq<Event>)
    requires Delaying(p) && Patient(events) && Run(p, events).Some?
    ensures Delaying(Run(p, events).value)
    decreases |events|
  {
    if events != [] {
      var e := events[0];
      OrderedKept(p, e);
      if e.other {
        ReaderDelays(p, e.action);
      } else {
        WriterDelays(p, e.action);
      }
      hide Delaying, Step;
      DelayingAlways(Step(p, e), events[1..]);
    }
  }

  /**
   When one end terminates and the user of the other is patient, the other end acknowledges only
   after it has read, in order, every complete message written before the termination.
   */
  lemma NothingLost(hwms: (int, int), events: seq<Event>)
    requires Patient(events) && Run(Made(hwms), events).Some?
    ensures var p := Run(Made(hwms), events).value;
            AckSent(p.peer.end) ==> p.peer.got == p.peer.whole && ClosedStream(p.peer.whole, true)
  {
    DelayingAlways(Made(hwms), events);
    var p := Run(Made(hwms), events).value;
    if AckSent(p.peer.end) {
      Causality(p);
      Causality(Flip(p));
      DelimiterIsLast(p.peer.got, p.peer.whole);
    }
  }

  lemma DelimiterIsLast(got: seq<Item>, whole: seq<Item>)
    requires got <= whole && Delimiter in got && ClosedStream(whole, true)
    ensures got == whole
  {
  }

  // ------------------------------------------------------------ flow control

  /** The number of messages in a stream that count towards the watermarks. */
  function Messages(s: seq<Item>): nat {
    if s == [] then 0 else Messages(s[..|s| - 1]) + if Counts(s[|s| - 1]) then 1 else 0
  }

  lemma {:induction false} MessagesAdd(s: seq<Item>, t: seq<Item>)
    ensures Messages(s + t) == Messages(s) + Messages(t)
    decreases |t|
  {
    if t == [] {
      assert s + t == s;
    } else {
      MessagesAdd(s, t[..|t| - 1]);
      assert (s + t)[..|s + t| - 1] == s + t[..|t| - 1];
    }
  }

  lemma {:induction false} NoMessages(s: seq<Item>)
    requires forall i :: 0 <= i < |s| ==> Incomplete(s[i])
    ensures Messages(s) == 0
    decreases |s|
  {
    if s != [] {
      NoMessages(s[..|s| - 1]);
    }
  }

  /** The count in the last `activate_write` among some commands. */
  function Credit(s: seq<Command>): nat {
    if s == [] then 0
    else if s[|s| - 1].ActivateWrite? then s[|s| - 1].msgsRead
    else Credit(s[..|s| - 1])
  }

  lemma CreditSnoc(s: seq<Command>, c: Command)
    ensures Credit(s + [c]) == if c.ActivateWrite? then c.msgsRead else Credit(s)
  {
  }

  /** The largest multiple of the low watermark up to `n`. */
  function Credited(lwm: int, n: nat): nat {
    if lwm > 0 then n - n % lwm else 0
  }

  /** The writer stays below the high watermark, and stops only at it. */
  predicate Bounded(w: End) {
    && (w.hwm > 0 ==> w.msgsWritten - w.peersMsgsRead <= w.hwm)
    && (w.state == Active && !w.outActive ==> w.hwm > 0 && w.msgsWritten - w.peersMsgsRead == w.hwm)
  }

  /** What the reader, which has read `n` messages, has told the writer, and what the writer has heard of it. */
  ghost predicate Informed(sent: seq<Command>, seen: nat, lwm: int, n: nat, heard: nat) {
    && Credit(sent) == Credited(lwm, n)
    && (forall i :: 0 <= i < |sent| && sent[i].ActivateWrite? ==> sent[i].msgsRead <= n)
    && Rising(sent)
    && seen <= |sent|
    && heard == Credit(sent[..seen])
  }

  /** The counters of the writer `me` and the reader `peer` of one queue. */
  ghost predicate Metered(p: Pair) {
    && p.me.end.msgsWritten == Messages(p.peer.whole)
    && p.peer.end.msgsRead == Messages(p.peer.got)
    && p.peer.end.lwm == ComputeLwm(p.me.end.hwm)
    && Informed(p.me.sent, p.me.seen, p.peer.end.lwm, p.peer.end.msgsRead, p.me.end.peersMsgsRead)
    && Bounded(p.me.end)
  }

  /** Only complete messages written change the writer's counter. */
  lemma WriterCounts(p: Pair, a: Action)
    requires Enabled(p, a) && InOrder(p.peer, p.me.end)
    requires p.me.end.msgsWritten == Messages(p.peer.whole)
    ensures Act(p, a).me.end.msgsWritten == Messages(Act(p, a).peer.whole)
  {
    match a
    case DoWrite(x) => CountsWrite(p, x);
    case DoTerminate(delay) =>
      TerminateCounters(LocalOf(p), delay);
      MessagesAdd(p.peer.whole, [Delimiter]);
    case DoRead => ReadCounters(LocalOf(p));
    case DoCheckRead => ReadCounters(LocalOf(p));
    case DoFlush => FlushPublishes(LocalOf(p));
    case _ =>
  }

  lemma CountsWrite(p: Pair, x: Item)
    requires Enabled(p, DoWrite(x)) && InOrder(p.peer, p.me.end)
    requires p.me.end.msgsWritten == Messages(p.peer.whole)
    ensures Act(p, DoWrite(x)).me.end.msgsWritten == Messages(Act(p, DoWrite(x)).peer.whole)
  {
    if Writable(p.me.end) && !Incomplete(x) {
      var w := p.peer.whole + p.peer.open_;
      NoMessages(p.peer.open_);
      MessagesAdd(p.peer.whole, p.peer.open_);
      assert (w + [x])[..|w|] == w;
    }
  }

  /** Everything about an end that only reading, writing and `activate_write` change. */
  predicate SameCounters(e: End, e': End) {
    && e'.msgsWritten == e.msgsWritten && e'.msgsRead == e.msgsRead && e'.peersMsgsRead == e.peersMsgsRead
    && e'.hwm == e.hwm && e'.lwm == e.lwm
  }

  lemma TerminateCounters(l: Local, delay: bool)
    ensures SameCounters(l.end, TerminateOf(l, delay).end) && TerminateOf(l, delay).end.state != Active
  {
    hide FlushOf, Written;
    var l1 := l.(end := l.end.(delay := delay));
    if l.end.state !in {TermReqSent1, TermReqSent2, TermAckSent} {
      var l2 := StopOf(l1);
      assert SameCounters(l.end, l2.end) && l2.end.state != Active;
      var l3 := l2.(end := l2.end.(outActive := false));
      FlushPublishes(l3.(outq := Written(RolledBack(l3.outq), Delimiter, false)));
    }
  }

  /** Counts told to the writer never go down. */
  ghost predicate Rising(s: seq<Command>) {
    forall i, j :: 0 <= i < j < |s| && s[i].ActivateWrite? && s[j].ActivateWrite? ==> s[i].msgsRead <= s[j].msgsRead
  }

  lemma {:induction false} CreditBound(s: seq<Command>, bound: nat)
    requires forall i :: 0 <= i < |s| && s[i].ActivateWrite? ==> s[i].msgsRead <= bound
    ensures Credit(s) <= bound
    decreases |s|
  {
    if s != [] {
      CreditBound(s[..|s| - 1], bound);
    }
  }

  /** If the last count told is larger than the last one heard, it is on its way. */
  lemma {:induction false} CreditInFlight(s: seq<Command>, n: nat)
    requires n <= |s| && Credit(s) > Credit(s[..n])
    ensures exists i :: n <= i < |s| && s[i] == ActivateWrite(Credit(s))
    decreases |s|
  {
    assert s[..|s|] == s;
    if !s[|s| - 1].ActivateWrite? {
      var t := s[..|s| - 1];
      assert t[..n] == s[..n];
      CreditInFlight(t, n);
      var i :| n <= i < |t| && t[i] == ActivateWrite(Credit(t));
      assert s[i] == ActivateWrite(Credit(s));
    } else {
      assert s[|s| - 1] == ActivateWrite(Credit(s));
    }
  }

  /** The writer hears what the reader has told it. */
  lemma HearsMore(sent: seq<Command>, seen: nat, lwm: int, n: nat, heard: nat)
    requires Informed(sent, seen, lwm, n, heard) && seen < |sent|
    ensures var c := sent[seen];
            && Informed(sent, seen + 1, lwm, n, if c.ActivateWrite? then c.msgsRead else heard)
            && (c.ActivateWrite? ==> heard <= c.msgsRead)
  {
    assert sent[..seen + 1] == sent[..seen] + [sent[seen]];
    CreditSnoc(sent[..seen], sent[seen]);
    if sent[seen].ActivateWrite? {
      CreditBound(sent[..seen], sent[seen].msgsRead);
    }
  }

  /** What the steps of the writer do to its counters. */
  lemma WriterEnd(p: Pair, a: Action)
    requires Enabled(p, a) && Bounded(p.me.end)
    requires a.DoProcess? && p.me.sent[p.me.seen].ActivateWrite? ==>
               p.me.end.peersMsgsRead <= p.me.sent[p.me.seen].msgsRead
    ensures var e, e' := p.me.end, Act(p, a).me.end;
            && e'.hwm == e.hwm && Bounded(e')
            && e'.peersMsgsRead == if a.DoProcess? && p.me.sent[p.me.seen].ActivateWrite?
                                   then p.me.sent[p.me.seen].msgsRead else e.peersMsgsRead
  {
    match a
    case DoTerminate(delay) => TerminateCounters(LocalOf(p), delay);
    case DoFlush => FlushPublishes(LocalOf(p));
    case DoRead => ReadCounters(LocalOf(p));
    case DoCheckRead => ReadCounters(LocalOf(p));
    case DoProcess => ProcessCounters(LocalOf(p), p.me.sent[p.me.seen]);
    case _ => OtherCounters(p, a);
    hide TerminateOf, ProcessOf, ReadOf, CheckReadOf, WriteOf, CheckWriteOf, RollbackOf, FlushOf, Stream;
  }

  lemma ProcessCounters(l: Local, cmd: Command)
    requires Bounded(l.end) && (cmd.ActivateWrite? ==> l.end.peersMsgsRead <= cmd.msgsRead)
    ensures var e' := ProcessOf(l, cmd).end;
            && e'.hwm == l.end.hwm && Bounded(e')
            && e'.peersMsgsRead == if cmd.ActivateWrite? then cmd.msgsRead else l.end.peersMsgsRead
  {
    var e, e' := l.end, ProcessOf(l, cmd).end;
    if cmd.ActivateWrite? {
      assert e' == e.(peersMsgsRead := cmd.msgsRead, outActive := e.outActive || e.state == Active);
    } else {
      assert e'.hwm == e.hwm && e'.msgsWritten == e.msgsWritten && e'.peersMsgsRead == e.peersMsgsRead;
      assert e'.outActive == e.outActive && (e'.state == Active ==> e.state == Active);
    }
    hide ProcessOf;
  }

  lemma OtherCounters(p: Pair, a: Action)
    requires Enabled(p, a) && Bounded(p.me.end)
    requires a.DoWrite? || a.DoCheckWrite? || a.DoRollback? || a.DoSetNoDelay?
    ensures var e, e' := p.me.end, Effect(p, a).end;
            e'.hwm == e.hwm && Bounded(e') && e'.peersMsgsRead == e.peersMsgsRead
  {
  }

  lemma ReadCounters(l: Local)
    ensures forall l' :: l' == ReadOf(l) || l' == CheckReadOf(l) ==>
              && SameCounters(l.end, l'.end.(msgsRead := l.end.msgsRead))
              && (l'.end.state == Active ==> l.end.state == Active) && l'.end.outActive == l.end.outActive
  {
  }

  /** The steps of the writer. */
  lemma WriterMetered(p: Pair, a: Action)
    requires Metered(p) && Enabled(p, a) && InOrder(p.peer, p.me.end)
    ensures Metered(Act(p, a))
  {
    hide Effect, Stream, Informed, Bounded, InOrder;
    WriterCounts(p, a);
    if a.DoProcess? {
      HearsMore(p.me.sent, p.me.seen, p.peer.end.lwm, p.peer.end.msgsRead, p.me.end.peersMsgsRead);
    }
    WriterEnd(p, a);
  }

  /** Commands that are not about reading do not change what the writer is told. */
  lemma {:induction false} TellsNothing(sent: seq<Command>, seen: nat, lwm: int, n: nat, heard: nat, more: seq<Command>)
    requires Informed(sent, seen, lwm, n, heard)
    requires forall i :: 0 <= i < |more| ==> !more[i].ActivateWrite?
    ensures Informed(sent + more, seen, lwm, n, heard)
    decreases |more|
  {
    if more == [] {
      assert sent + more == sent;
    } else {
      var m := more[..|more| - 1];
      TellsNothing(sent, seen, lwm, n, heard, m);
      assert sent + more == (sent + m) + [more[|more| - 1]];
      CreditSnoc(sent + m, more[|more| - 1]);
      assert (sent + more)[..seen] == (sent + m)[..seen];
    }
  }

  lemma NextMultiple(lwm: int, n: nat)
    requires lwm > 0
    ensures (n + 1) % lwm == 0 || Credited(lwm, n + 1) == Credited(lwm, n)
  {
    var q, r := n / lwm, n % lwm;
    assert n + 1 == q * lwm + (r + 1);
    if r + 1 < lwm {
      DivModUnique(n + 1, lwm, q, r + 1);
    } else {
      DivModUnique(n + 1, lwm, q + 1, 0);
    }
  }

  /** The reader tells its count whenever it is a multiple of the low watermark. */
  lemma TellsCount(sent: seq<Command>, seen: nat, lwm: int, n: nat, heard: nat, n': nat)
    requires Informed(sent, seen, lwm, n, heard) && n <= n' <= n + 1
    ensures Informed(if lwm > 0 && n' % lwm == 0 then sent + [ActivateWrite(n')] else sent, seen, lwm, n', heard)
  {
    if lwm > 0 {
      NextMultiple(lwm, n);
      CreditSnoc(sent, ActivateWrite(n'));
      assert (sent + [ActivateWrite(n')])[..seen] == sent[..seen];
    }
  }

  /** A channel has grown, but not by an `activate_write`. */
  ghost predicate IsQuiet(out: seq<Command>, out': seq<Command>) {
    out <= out' && forall i :: |out| <= i < |out'| ==> !out'[i].ActivateWrite?
  }

  lemma QuietFlush(l: Local)
    ensures IsQuiet(l.out, FlushOf(l).out) && FlushOf(l).end == l.end
  {
  }

  /** A read that hands out nothing. */
  lemma QuietRead(l: Local)
    ensures ReadPart(l).None? ==> IsQuiet(l.out, ReadOf(l).out) && ReadOf(l).end.msgsRead == l.end.msgsRead
    ensures IsQuiet(l.out, CheckReadOf(l).out) && CheckReadOf(l).end.msgsRead == l.end.msgsRead
    ensures ReadOf(l).end.lwm == l.end.lwm && CheckReadOf(l).end.lwm == l.end.lwm
  {
  }

  lemma QuietTerminate(l: Local, delay: bool)
    ensures IsQuiet(l.out, TerminateOf(l, delay).out)
  {
    hide FlushOf, Written;
    var l1 := l.(end := l.end.(delay := delay));
    if l.end.state !in {TermReqSent1, TermReqSent2, TermAckSent} {
      var l2 := StopOf(l1);
      assert IsQuiet(l.out, l2.out);
      var l3 := l2.(end := l2.end.(outActive := false));
      QuietFlush(l3.(outq := Written(RolledBack(l3.outq), Delimiter, false)));
    }
  }

  lemma QuietProcess(l: Local, c: Command)
    ensures IsQuiet(l.out, ProcessOf(l, c).out)
    ensures ProcessOf(l, c).end.msgsRead == l.end.msgsRead && ProcessOf(l, c).end.lwm == l.end.lwm
  {
  }

  /** What the steps of the reader do to its counter and what they tell the writer. */
  lemma ReaderEmits(p: Pair, a: Action)
    requires Enabled(p, a)
    ensures var l, n, n' := LocalOf(p), p.me.end.msgsRead, Act(p, a).me.end.msgsRead;
            var out, out' := p.peer.sent, Act(p, a).peer.sent;
            if a.DoRead? && ReadPart(l).Some? then
              && n' == n + (if Counts(ReadPart(l).value) then 1 else 0)
              && out' == if l.end.lwm > 0 && n' % l.end.lwm == 0 then out + [ActivateWrite(n')] else out
            else
              n' == n && IsQuiet(out, out')
    ensures Act(p, a).me.end.lwm == p.me.end.lwm
  {
    var l := LocalOf(p);
    match a
    case DoRead =>
      if ReadPart(l).None? {
        QuietRead(l);
      }
    case DoCheckRead => QuietRead(l);
    case DoFlush => QuietFlush(l);
    case DoTerminate(delay) =>
      hide TerminateOf;
      QuietTerminate(l, delay);
      TerminateCounters(l, delay);
    case DoProcess => QuietProcess(l, p.me.sent[p.me.seen]);
    case _ =>
  }

  lemma GotCounts(p: Pair, a: Action)
    requires Enabled(p, a)
    ensures Messages(p.me.got + Got(p, a)) ==
            Messages(p.me.got) +
            if a.DoRead? && ReadPart(LocalOf(p)).Some? && Counts(ReadPart(LocalOf(p)).value) then 1 else 0
  {
    var g := Got(p, a);
    MessagesAdd(p.me.got, g);
    if g != [] {
      assert g[..0] == [];
    }
  }

  /** The steps of the reader. */
  lemma ReaderMetered(p: Pair, a: Action)
    requires Metered(p) && Enabled(Flip(p), a)
    ensures Metered(Flip(Act(Flip(p), a)))
  {
    hide Effect, Stream, Informed, Bounded, Got;
    var q := Flip(p);
    var n, n' := q.me.end.msgsRead, Act(q, a).me.end.msgsRead;
    var out, out' := q.peer.sent, Act(q, a).peer.sent;
    ReaderEmits(q, a);
    GotCounts(q, a);
    if a.DoRead? && ReadPart(LocalOf(q)).Some? {
      TellsCount(p.me.sent, p.me.seen, p.peer.end.lwm, n, p.me.end.peersMsgsRead, n');
    } else {
      var more := out'[|out|..];
      assert out' == out + more;
      TellsNothing(p.me.sent, p.me.seen, p.peer.end.lwm, n, p.me.end.peersMsgsRead, more);
    }
  }

  ghost predicate Flowing(p: Pair) {
    Ordered(p) && Metered(p) && Metered(Flip(p))
  }

  lemma FlowingKept(p: Pair, e: Event)
    requires Flowing(p) && Possible(p, e)
    ensures Flowing(Step(p, e))
  {
    OrderedKept(p, e);
    var q := if e.other then Flip(p) else p;
    WriterMetered(q, e.action);
    ReaderMetered(Flip(q), e.action);
    assert Flip(Flip(q)) == q && Flip(Flip(Act(q, e.action))) == Act(q, e.action);
  }

  lemma {:induction false} FlowingAlways(p: Pair, events: seq<Event>)
    requires Flowing(p) && Run(p, events).Some?
    ensures Flowing(Run(p, events).value)
    decreases |events|
  {
    if events != [] {
      FlowingKept(p, events[0]);
      FlowingAlways(Step(p, events[0]), events[1..]);
    }
  }

  /** The complete messages in the queue from `me` to `peer` that have not been read. */
  function Unread(p: Pair): int {
    Messages(p.peer.inq.pub + p.peer.inq.pend)
  }

  predicate SameMarks(e: End, e': End) {
    e'.hwm == e.hwm && e'.lwm == e.lwm
  }

  lemma TerminateMarks(l: Local, delay: bool)
    ensures SameMarks(l.end, TerminateOf(l, delay).end)
  {
    var l0 := l.(end := l.end.(delay := delay));
    assert SameMarks(l0.end, StopOf(l0).end);
    assert SameMarks(l0.end, CloseOf(StopOf(l0)).end);
  }

  lemma ProcessMarks(l: Local, cmd: Command)
    ensures SameMarks(l.end, ProcessOf(l, cmd).end)
  {
  }

  lemma MarksKept(p: Pair, a: Action)
    requires Enabled(p, a)
    ensures var q := Act(p, a); SameMarks(p.me.end, q.me.end) && q.peer.end == p.peer.end
  {
    if a.DoTerminate? {
      TerminateMarks(LocalOf(p), a.delay);
    } else if a.DoProcess? {
      ProcessMarks(LocalOf(p), p.me.sent[p.me.seen]);
    } else {
      OtherMarks(p, a);
    }
    hide TerminateOf, ProcessOf, ReadOf, CheckReadOf, WriteOf, CheckWriteOf, RollbackOf, FlushOf, Stream;
  }

  lemma OtherMarks(p: Pair, a: Action)
    requires Enabled(p, a) && !a.DoTerminate? && !a.DoProcess?
    ensures SameMarks(p.me.end, Effect(p, a).end)
  {
  }

  /** The watermarks stay those that the ends were made with. */
  lemma {:induction false} MarksFixed(p: Pair, events: seq<Event>)
    requires Run(p, events).Some?
    ensures var q := Run(p, events).value;
            SameMarks(p.me.end, q.me.end) && SameMarks(p.peer.end, q.peer.end)
    decreases |events|
  {
    if events != [] {
      var e := events[0];
      MarksKept(if e.other then Flip(p) else p, e.action);
      hide Act;
      MarksFixed(Step(p, e), events[1..]);
    }
  }

  /** In every state of every run the messages not read are within the high watermark, both ways. */
  lemma WithinHwm(hwms: (int, int), events: seq<Event>)
    requires Run(Made(hwms), events).Some?
    ensures var p := Run(Made(hwms), events).value;
            && (p.peer.end.alive && hwms.0 > 0 ==> Unread(p) <= hwms.0)
            && (p.me.end.alive && hwms.1 > 0 ==> Unread(Flip(p)) <= hwms.1)
  {
    MarksFixed(Made(hwms), events);
    FlowingAlways(Made(hwms), events);
    WithinHwmHere(Run(Made(hwms), events).value);
    WithinHwmHere(Flip(Run(Made(hwms), events).value));
  }

  lemma WithinHwmHere(p: Pair)
    requires Flowing(p)
    ensures p.peer.end.alive && p.me.end.hwm > 0 ==> Unread(p) <= p.me.end.hwm
  {
    if p.peer.end.alive {
      UnreadCount(p);
      CreditBound(p.me.sent[..p.me.seen], p.peer.end.msgsRead);
    }
  }

  lemma UnreadCount(p: Pair)
    requires Flowing(p) && p.peer.end.alive
    ensures Unread(p) == p.me.end.msgsWritten - p.peer.end.msgsRead
  {
    var q := p.peer.inq;
    assert p.peer.got + (q.pub + q.pend) == p.peer.whole;
    MessagesAdd(p.peer.got, q.pub + q.pend);
  }

  /** An `activate_write` that lets the writer go on is on its way to it. */
  ghost predicate CreditOnItsWay(p: Pair) {
    exists i :: p.me.seen <= i < |p.me.sent| && p.me.sent[i].ActivateWrite?
                && p.me.sent[i].msgsRead > p.me.end.peersMsgsRead
  }

  /**
   A writer stopped at the high watermark never waits in vain: a count that lets it go on is on
   its way, or the reader has enough messages left to reach the next count it has to tell.
   */
  ghost predicate NoStall(p: Pair) {
    p.me.end.state == Active && !p.me.end.outActive && p.peer.end.alive ==>
      || CreditOnItsWay(p)
      || var next := p.me.end.peersMsgsRead + p.peer.end.lwm;
         && p.peer.end.lwm > 0 && next % p.peer.end.lwm == 0
         && p.peer.end.msgsRead < next <= p.peer.end.msgsRead + Unread(p)
  }

  lemma NoStallHere(p: Pair)
    requires Flowing(p)
    ensures NoStall(p)
  {
    var w, r := p.me.end, p.peer.end;
    if w.state == Active && !w.outActive && r.alive {
      UnreadCount(p);
      if Credit(p.me.sent) > w.peersMsgsRead {
        CreditInFlight(p.me.sent, p.me.seen);
      } else {
        CreditBelow(p.me.sent, p.me.seen);
        assert w.peersMsgsRead == Credited(r.lwm, r.msgsRead);
        MultipleNext(r.lwm, r.msgsRead);
      }
    }
  }

  /** No count heard is above the last one told. */
  lemma {:induction false} CreditBelow(s: seq<Command>, n: nat)
    requires Rising(s) && n <= |s|
    ensures Credit(s[..n]) <= Credit(s)
    decreases |s|
  {
    if n == |s| {
      assert s[..n] == s;
    } else if s[|s| - 1].ActivateWrite? {
      CreditBound(s[..n], s[|s| - 1].msgsRead);
    } else {
      assert s[..|s| - 1][..n] == s[..n];
      CreditBelow(s[..|s| - 1], n);
    }
  }

  lemma MultipleNext(lwm: int, n: nat)
    requires lwm > 0
    ensures var next := Credited(lwm, n) + lwm;
            next % lwm == 0 && n < next <= n + lwm
  {
    var q := n / lwm;
    assert Credited(lwm, n) == q * lwm;
    DivModUnique((q + 1) * lwm, lwm, q + 1, 0);
  }

  /** Flow control never stalls, in either direction, in any state of any run. */
  lemma NeverStalls(hwms: (int, int), events: seq<Event>)
    requires Run(Made(hwms), events).Some?
    ensures NoStall(Run(Made(hwms), events).value) && NoStall(Flip(Run(Made(hwms), events).value))
  {
    FlowingAlways(Made(hwms), events);
    NoStallHere(Run(Made(hwms), events).value);
    NoStallHere(Flip(Run(Made(hwms), events).value));
  }

  /** The reader reads `n` times. */
  function ReadTimes(l: Local, n: nat): Local {
    if n == 0 then l else ReadOf(ReadTimes(l, n - 1))
  }

  lemma OneRead(l: Local)
    requires Readable(l.end) && l.inq.pub != [] && l.inq.pub[0].Data?
    ensures var l', n := ReadOf(l), l.end.msgsRead + if Counts(l.inq.pub[0]) then 1 else 0;
            && Readable(l'.end) && l'.inq.pub == l.inq.pub[1..] && l'.end.lwm == l.end.lwm && l'.end.msgsRead == n
            && l'.out == if l.end.lwm > 0 && n % l.end.lwm == 0 then l.out + [ActivateWrite(n)] else l.out
  {
  }

  lemma {:induction false} ReadTimesState(l: Local, n: nat)
    requires Readable(l.end) && n <= |l.inq.pub| && forall i :: 0 <= i < n ==> l.inq.pub[i].Data?
    ensures var l' := ReadTimes(l, n);
            && Readable(l'.end) && l'.inq.pub == l.inq.pub[n..] && l'.end.lwm == l.end.lwm
            && l'.end.msgsRead == l.end.msgsRead + Messages(l.inq.pub[..n])
            && l.out <= l'.out
  {
    hide ReadOf;
    if n > 0 {
      ReadTimesState(l, n - 1);
      OneRead(ReadTimes(l, n - 1));
      assert l.inq.pub[..n][..n - 1] == l.inq.pub[..n - 1];
      assert l.inq.pub[n - 1..][1..] == l.inq.pub[n..];
    }
  }

  /** Reading up to a multiple of the low watermark tells the writer about it. */
  lemma ReadingTells(l: Local, n: nat, next: nat)
    requires Readable(l.end) && 0 < n <= |l.inq.pub| && forall i :: 0 <= i < n ==> l.inq.pub[i].Data?
    requires l.end.lwm > 0 && next % l.end.lwm == 0
    requires l.end.msgsRead + Messages(l.inq.pub[..n]) == next
    ensures l.out < ReadTimes(l, n).out && ReadTimes(l, n).out[|ReadTimes(l, n).out| - 1] == ActivateWrite(next)
  {
    hide ReadOf, Messages;
    ReadTimesState(l, n - 1);
    ReadTimesState(l, n);
    OneRead(ReadTimes(l, n - 1));
  }
}
