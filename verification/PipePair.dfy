/**
 Two ends of a pipe, joined by two queues and two first-in-first-out command channels, as a
 transition system: any interleaving of user calls and command deliveries at both ends. The
 theorems hold in every state such a run can reach.
 */
module PipePairs {
  import opened Bytes
  import opened YPipes
  import opened Pipes

  /**
   One end, its inbound queue, and every command ever sent to it, of which it has processed
   `seen`. The last three fields are history: what it has taken from its queue, the complete
   messages that were written to the queue, and the message being written to it.
   */
  datatype Side = Side(end: End, inq: Queue<Item>, sent: seq<Command>, seen: nat,
                       got: seq<Item>, whole: seq<Item>, open_: seq<Item>)

  datatype Pair = Pair(me: Side, peer: Side)

  function Flip(p: Pair): Pair {
    Pair(p.peer, p.me)
  }

  datatype Action =
    | DoRead | DoCheckRead | DoWrite(x: Item) | DoCheckWrite | DoRollback | DoFlush
    | DoTerminate(delay: bool) | DoSetNoDelay | DoProcess

  predicate Enabled(p: Pair, a: Action) {
    && p.me.end.alive
    && (a.DoProcess? ==> p.me.seen < |p.me.sent|)
    && (a.DoWrite? ==> a.x.Data?)
  }

  function LocalOf(p: Pair): Local {
    Local(p.me.end, p.me.inq, p.peer.inq, p.peer.sent)
  }

  /** The effect of an action on what the end can see. */
  function Effect(p: Pair, a: Action): Local
    requires Enabled(p, a)
  {
    var l := LocalOf(p);
    match a
    case DoRead => ReadOf(l)
    case DoCheckRead => CheckReadOf(l)
    case DoWrite(x) => WriteOf(l, x)
    case DoCheckWrite => CheckWriteOf(l)
    case DoRollback => RollbackOf(l)
    case DoFlush => FlushOf(l)
    case DoTerminate(delay) => TerminateOf(l, delay)
    case DoSetNoDelay => l.(end := l.end.(delay := false))
    case DoProcess => ProcessOf(l, p.me.sent[p.me.seen])
  }

  /** What the end takes from its inbound queue by this action. */
  function Got(p: Pair, a: Action): seq<Item> {
    var l := LocalOf(p);
    if (a.DoRead? || a.DoCheckRead?) && Readable(l.end) && l.inq.pub != []
       && (a.DoRead? || l.inq.pub[0].Delimiter?)
    then [l.inq.pub[0]] else []
  }

  /** Whether `terminate` closes the outbound stream. */
  predicate Closes(e: End, delay: bool) {
    e.hasOut && e.state !in {TermReqSent1, TermReqSent2, TermAckSent} && (e.state == WaitingForDelimiter ==> delay)
  }

  /** The outbound stream, complete messages and the one being written, after this action. */
  function Stream(p: Pair, a: Action): (seq<Item>, seq<Item>) {
    var e, whole, part := p.me.end, p.peer.whole, p.peer.open_;
    match a
    case DoWrite(x) =>
      if !Writable(e) then (whole, part)
      else if Incomplete(x) then (whole, part + [x])
      else (whole + part + [x], [])
    case DoRollback => (whole, if e.hasOut then [] else part)
    case DoTerminate(delay) => if Closes(e, delay) then (whole + [Delimiter], []) else (whole, part)
    case _ => (whole, part)
  }

  function Act(p: Pair, a: Action): Pair
    requires Enabled(p, a)
  {
    var l := Effect(p, a);
    var seen := p.me.seen + if a.DoProcess? then 1 else 0;
    var (whole, part) := Stream(p, a);
    Pair(p.me.(end := l.end, inq := l.inq, seen := seen, got := p.me.got + Got(p, a)),
         p.peer.(inq := l.outq, sent := l.out, whole := whole, open_ := part))
  }

  datatype Event = Event(other: bool, action: Action)

  predicate Possible(p: Pair, e: Event) {
    Enabled(if e.other then Flip(p) else p, e.action)
  }

  function Step(p: Pair, e: Event): Pair
    requires Possible(p, e)
  {
    if e.other then Flip(Act(Flip(p), e.action)) else Act(p, e.action)
  }

  /** The pair that `pipepair` makes. */
  function Made(hwms: (int, int)): Pair {
    Pair(Side(NewEnd(hwms.1, hwms.0), Empty(), [], 0, [], [], []),
         Side(NewEnd(hwms.0, hwms.1), Empty(), [], 0, [], [], []))
  }

  /** The state a run ends in, if every event in it is possible when its turn comes. */
  function Run(p: Pair, events: seq<Event>): Option<Pair>
    decreases |events|
  {
    if events == [] then Some(p)
    else if Possible(p, events[0]) then Run(Step(p, events[0]), events[1..])
    else None
  }

  // ---------------------------------------------- termination: who sent what

  predicate IsControl(c: Command) {
    c == PipeTerm || c == PipeTermAck
  }

  /** The termination commands among those sent. */
  function Control(s: seq<Command>): seq<Command> {
    if s == [] then []
    else Control(s[..|s| - 1]) + if IsControl(s[|s| - 1]) then [s[|s| - 1]] else []
  }

  lemma ControlSnoc(s: seq<Command>, c: Command)
    ensures Control(s + [c]) == Control(s) + if IsControl(c) then [c] else []
  {
  }

  lemma {:induction false} ControlPrefix(s: seq<Command>, n: nat)
    requires n <= |s|
    ensures Control(s[..n]) <= Control(s)
    decreases |s|
  {
    if n < |s| {
      ControlPrefix(s[..|s| - 1], n);
      assert s[..|s| - 1][..n] == s[..n];
    } else {
      assert s[..n] == s;
    }
  }

  predicate TermSent(e: End) { e.state in {TermReqSent1, TermReqSent2} }
  predicate TermSeen(e: End) { e.state in {WaitingForDelimiter, TermAckSent, TermReqSent2} }
  predicate AckSent(e: End) { e.state in {TermAckSent, TermReqSent2} || !e.alive }

  function Commands(term: bool, ack: bool): seq<Command> {
    (if term then [PipeTerm] else []) + if ack then [PipeTermAck] else []
  }

  /** An end has sent exactly the termination commands its state says, the acknowledgement last of all. */
  ghost predicate SentMatches(e: End, out: seq<Command>) {
    && Control(out) == Commands(TermSent(e), AckSent(e))
    && (AckSent(e) ==> out != [] && out[|out| - 1] == PipeTermAck)
    && (e.hasOut <==> !AckSent(e))
  }

  lemma SendTerm(e: End, e': End, out: seq<Command>)
    requires SentMatches(e, out) && !TermSent(e) && !AckSent(e)
    requires TermSent(e') && !AckSent(e') && e'.hasOut
    ensures SentMatches(e', out + [PipeTerm])
  {
  }

  lemma SendAck(e: End, e': End, out: seq<Command>)
    requires SentMatches(e, out) && !AckSent(e)
    requires TermSent(e') == TermSent(e) && AckSent(e') && !e'.hasOut
    ensures SentMatches(e', out + [PipeTermAck])
  {
  }

  lemma FlushSends(l: Local)
    requires SentMatches(l.end, l.out)
    ensures SentMatches(FlushOf(l).end, FlushOf(l).out)
  {
  }

  lemma TerminateSends(l: Local, delay: bool)
    requires SentMatches(l.end, l.out) && l.end.alive
    ensures SentMatches(TerminateOf(l, delay).end, TerminateOf(l, delay).out)
  {
    hide Control, Commands;
    var l1 := l.(end := l.end.(delay := delay));
    if l.end.state !in {TermReqSent1, TermReqSent2, TermAckSent} {
      var l2 := StopOf(l1);
      assert SentMatches(l2.end, l2.out) by {
        if l.end.state == WaitingForDelimiter {
          SendAck(l.end, l2.end.(state := TermAckSent, hasOut := false), l.out);
        } else {
          SendTerm(l.end, l2.end, l.out);
        }
      }
      var l3 := l2.(end := l2.end.(outActive := false));
      FlushSends(l3.(outq := Written(RolledBack(l3.outq), Delimiter, false)));
    }
  }

  lemma ReadSends(l: Local)
    requires SentMatches(l.end, l.out) && l.end.alive
    ensures SentMatches(ReadOf(l).end, ReadOf(l).out)
    ensures SentMatches(CheckReadOf(l).end, CheckReadOf(l).out)
  {
  }

  lemma ProcessSends(l: Local, c: Command)
    requires SentMatches(l.end, l.out) && l.end.alive && Expects(l.end, c)
    ensures SentMatches(ProcessOf(l, c).end, ProcessOf(l, c).out)
  {
    hide Control, Commands;
    match c
    case PipeTerm =>
      var l' := ProcessOf(l, c);
      if AckSent(l'.end) {
        SendAck(l.end, l'.end, l.out);
      }
    case PipeTermAck =>
      if l.end.state == TermReqSent1 {
        SendAck(l.end, l.end.(hasOut := false, alive := false), l.out);
      }
    case _ =>
  }

  lemma SentKept(p: Pair, a: Action)
    requires Enabled(p, a) && SentMatches(p.me.end, p.peer.sent)
    requires a.DoProcess? ==> Expects(p.me.end, p.me.sent[p.me.seen])
    ensures SentMatches(Act(p, a).me.end, Act(p, a).peer.sent)
  {
    var l := LocalOf(p);
    match a
    case DoRead => ReadSends(l);
    case DoCheckRead => ReadSends(l);
    case DoFlush => FlushSends(l);
    case DoTerminate(delay) => TerminateSends(l, delay);
    case DoProcess => ProcessSends(l, p.me.sent[p.me.seen]);
    case _ =>
  }

  /** An end has processed exactly the termination commands its state says. */
  ghost predicate SeenMatches(s: Side) {
    && s.seen <= |s.sent|
    && Control(s.sent[..s.seen]) == Commands(TermSeen(s.end), !s.end.alive)
    && (!s.end.alive ==> s.seen == |s.sent| && s.end.state in {TermReqSent1, TermAckSent, TermReqSent2})
  }

  ghost predicate Terminating(p: Pair) {
    && SentMatches(p.me.end, p.peer.sent) && SentMatches(p.peer.end, p.me.sent)
    && SeenMatches(p.me) && SeenMatches(p.peer)
  }

  /** What commands seen so far say about the commands sent, when they come in the same order. */
  lemma CommandsPrefix(term: bool, ack: bool, term': bool, ack': bool)
    requires Commands(term, ack) <= Commands(term', ack')
    ensures (term ==> term') && (ack ==> ack') && (ack ==> term == term')
  {
    assert Commands(term, ack) != [] ==> Commands(term', ack')[0] == Commands(term, ack)[0];
  }

  lemma CommandsNext(term: bool, ack: bool, c: Command, term': bool, ack': bool)
    requires IsControl(c) && Commands(term, ack) + [c] <= Commands(term', ack')
    ensures c == PipeTerm ==> !term && !ack && term'
    ensures c == PipeTermAck ==> !ack && ack' && term == term'
  {
    var n := |Commands(term, ack)|;
    assert Commands(term', ack')[n] == c;
    assert n > 0 ==> Commands(term', ack')[n - 1] == Commands(term, ack)[n - 1];
  }

  /** What one end has seen, the other has sent. */
  lemma Causality(p: Pair)
    requires Terminating(p)
    ensures TermSeen(p.me.end) ==> TermSent(p.peer.end)
    ensures !p.me.end.alive ==> AckSent(p.peer.end)
  {
    ControlPrefix(p.me.sent, p.me.seen);
    CommandsPrefix(TermSeen(p.me.end), !p.me.end.alive, TermSent(p.peer.end), AckSent(p.peer.end));
  }

  /** Two acknowledgements in a channel would be one too many. */
  lemma TwoAcks(s: seq<Command>, i: nat, term: bool, ack: bool)
    requires i < |s| - 1 && s[i] == PipeTermAck && s[|s| - 1] == PipeTermAck
    ensures Control(s) != Commands(term, ack)
  {
    hide Control;
    var n := |s| - 1;
    assert s == s[..n] + [s[n]];
    assert s[..n][..i + 1] == s[..i] + [s[i]];
    ControlSnoc(s[..n], s[n]);
    ControlSnoc(s[..i], s[i]);
    ControlPrefix(s[..n], i + 1);
    var k := |Control(s[..i])|;
    assert Control(s)[k] == PipeTermAck;
    OneAck(term, ack);
  }

  lemma OneAck(term: bool, ack: bool)
    ensures forall k :: 0 <= k < |Commands(term, ack)| - 1 ==> Commands(term, ack)[k] == PipeTerm
  {
  }

  lemma AckWasSent(s: seq<Command>, i: nat, term: bool, ack: bool)
    requires i < |s| && s[i] == PipeTermAck && Control(s) == Commands(term, ack)
    ensures ack
  {
    hide Control;
    assert s[..i + 1] == s[..i] + [s[i]];
    ControlSnoc(s[..i], s[i]);
    ControlPrefix(s, i + 1);
    assert Control(s)[|Control(s[..i])|] == PipeTermAck;
  }

  /** An acknowledgement is the last command in its channel. */
  lemma AckIsLast(p: Pair, i: nat)
    requires Terminating(p) && i < |p.me.sent| && p.me.sent[i] == PipeTermAck
    ensures i == |p.me.sent| - 1
  {
    AckWasSent(p.me.sent, i, TermSent(p.peer.end), AckSent(p.peer.end));
    if i < |p.me.sent| - 1 {
      TwoAcks(p.me.sent, i, TermSent(p.peer.end), AckSent(p.peer.end));
    }
  }

  lemma StateCases(e: End)
    ensures !TermSeen(e) ==> e.state in {Active, DelimiterReceived, TermReqSent1}
    ensures TermSent(e) || (AckSent(e) && e.alive) ==> e.state in {TermReqSent1, TermAckSent, TermReqSent2}
  {
    match e.state
    case Active =>
    case DelimiterReceived =>
    case WaitingForDelimiter =>
    case TermAckSent =>
    case TermReqSent1 =>
    case TermReqSent2 =>
  }

  /** Whatever command comes next, the end that gets it is in a state that expects it. */
  lemma NextExpected(p: Pair)
    requires Terminating(p) && p.me.end.alive && p.me.seen < |p.me.sent|
    ensures Expects(p.me.end, p.me.sent[p.me.seen])
    ensures p.me.sent[p.me.seen] == PipeTermAck ==> p.me.seen + 1 == |p.me.sent|
    ensures p.me.sent[p.me.seen] == PipeTerm ==> TermSent(p.peer.end)
  {
    var s, n := p.me.sent, p.me.seen;
    if IsControl(s[n]) {
      assert s[..n + 1] == s[..n] + [s[n]];
      ControlSnoc(s[..n], s[n]);
      ControlPrefix(s, n + 1);
      CommandsNext(TermSeen(p.me.end), !p.me.end.alive, s[n], TermSent(p.peer.end), AckSent(p.peer.end));
      Causality(Flip(p));
      StateCases(p.me.end);
      if s[n] == PipeTermAck {
        AckIsLast(p, n);
      }
    }
  }

  /** Commands are only ever added to a channel, and none after the acknowledgement. */
  lemma ChannelGrows(p: Pair, a: Action)
    requires Enabled(p, a) && SentMatches(p.me.end, p.peer.sent)
    ensures p.peer.sent <= Act(p, a).peer.sent
    ensures AckSent(p.me.end) && (a.DoProcess? ==> Expects(p.me.end, p.me.sent[p.me.seen])) ==>
              Act(p, a).peer.sent == p.peer.sent
  {
  }

  /** What is left of the channel to process is not touched by what is sent meanwhile. */
  lemma PeerSeenKept(p: Pair, a: Action)
    requires Terminating(p) && Enabled(p, a)
    requires a.DoProcess? ==> Expects(p.me.end, p.me.sent[p.me.seen])
    ensures SeenMatches(Act(p, a).peer)
  {
    ChannelGrows(p, a);
    Causality(Flip(p));
    assert Act(p, a).peer.sent[..p.peer.seen] == p.peer.sent[..p.peer.seen];
  }

  /** Only commands change what an end has seen. */
  lemma SeenStable(p: Pair, a: Action)
    requires Enabled(p, a) && !a.DoProcess?
    ensures TermSeen(Act(p, a).me.end) == TermSeen(p.me.end) && Act(p, a).me.end.alive
  {
    match a
    case DoRead =>
    case DoCheckRead =>
    case DoTerminate(delay) => TerminateStable(LocalOf(p), delay);
    case _ =>
  }

  lemma TerminateStable(l: Local, delay: bool)
    ensures var e := TerminateOf(l, delay).end;
            TermSeen(e) == TermSeen(l.end) && e.alive == l.end.alive
  {
  }

  lemma ProcessSees(l: Local, c: Command)
    requires Expects(l.end, c) && l.end.alive
    ensures var e := ProcessOf(l, c).end;
            && TermSeen(e) == (TermSeen(l.end) || c == PipeTerm)
            && e.alive == (c != PipeTermAck)
            && (!e.alive ==> e.state in {TermReqSent1, TermAckSent, TermReqSent2})
            && (c == PipeTerm ==> !TermSeen(l.end))
  {
  }

  lemma SeenKept(p: Pair, a: Action)
    requires Terminating(p) && Enabled(p, a)
    requires a.DoProcess? ==> Expects(p.me.end, p.me.sent[p.me.seen])
    requires a.DoProcess? && p.me.sent[p.me.seen] == PipeTermAck ==> p.me.seen + 1 == |p.me.sent|
    ensures SeenMatches(Act(p, a).me)
  {
    hide Effect, ProcessOf, ReadOf, Control;
    if a.DoProcess? {
      var s, n := p.me.sent, p.me.seen;
      assert s[..n + 1] == s[..n] + [s[n]];
      ControlSnoc(s[..n], s[n]);
      ProcessSees(LocalOf(p), s[n]);
      ActProcess(p);
    } else {
      SeenStable(p, a);
    }
  }

  lemma ActProcess(p: Pair)
    requires Enabled(p, DoProcess)
    ensures var l := ProcessOf(LocalOf(p), p.me.sent[p.me.seen]);
            Act(p, DoProcess).me == p.me.(end := l.end, inq := l.inq, seen := p.me.seen + 1)
  {
  }

  lemma TerminatingKept(p: Pair, e: Event)
    requires Terminating(p) && Possible(p, e)
    ensures Terminating(Step(p, e))
  {
    var q := if e.other then Flip(p) else p;
    if e.action.DoProcess? {
      NextExpected(q);
    }
    SentKept(q, e.action);
    SeenKept(q, e.action);
    PeerSeenKept(q, e.action);
    assert Act(q, e.action).peer.end == q.peer.end && Act(q, e.action).me.sent == q.me.sent;
  }

  lemma {:induction false} TerminatingAlways(p: Pair, events: seq<Event>)
    requires Terminating(p) && Run(p, events).Some?
    ensures Terminating(Run(p, events).value)
    decreases |events|
  {
    if events != [] {
      TerminatingKept(p, events[0]);
      TerminatingAlways(Step(p, events[0]), events[1..]);
    }
  }

  lemma {:induction false} ControlCount(s: seq<Command>, c: Command)
    requires IsControl(c)
    ensures multiset(s)[c] == multiset(Control(s))[c]
    decreases |s|
  {
    if s != [] {
      ControlCount(s[..|s| - 1], c);
      assert s == s[..|s| - 1] + [s[|s| - 1]];
    }
  }

  /** What termination guarantees of the end `me` of a pair. */
  ghost predicate SafelyTerminating(p: Pair) {
    // the assertions on the state in the command handlers hold
    && (p.me.end.alive && p.me.seen < |p.me.sent| ==> Expects(p.me.end, p.me.sent[p.me.seen]))
    // no command is sent twice
    && multiset(p.peer.sent)[PipeTerm] <= 1
    && multiset(p.peer.sent)[PipeTermAck] <= 1
    // no command reaches a deallocated end
    && (!p.me.end.alive ==> p.me.seen == |p.me.sent|)
    // a queue is freed by its reader only when its writer has let go of it
    && (!p.me.end.alive ==> !p.peer.end.hasOut)
    // both ends are gone only when both have asked or been asked, and have agreed
    && (!p.me.end.alive ==> AckSent(p.me.end) && AckSent(p.peer.end) && (TermSent(p.me.end) || TermSent(p.peer.end)))
  }

  lemma SafeHere(p: Pair)
    requires Terminating(p)
    ensures SafelyTerminating(p)
  {
    if p.me.end.alive && p.me.seen < |p.me.sent| {
      NextExpected(p);
    }
    ControlCount(p.peer.sent, PipeTerm);
    ControlCount(p.peer.sent, PipeTermAck);
    Causality(p);
    Causality(Flip(p));
    StateCases(p.peer.end);
    StateCases(p.me.end);
  }

  /** Termination is safe at both ends in every state of every run. */
  lemma TerminationSafety(hwms: (int, int), events: seq<Event>)
    requires Run(Made(hwms), events).Some?
    ensures SafelyTerminating(Run(Made(hwms), events).value)
    ensures SafelyTerminating(Flip(Run(Made(hwms), events).value))
  {
    TerminatingAlways(Made(hwms), events);
    SafeHere(Run(Made(hwms), events).value);
    SafeHere(Flip(Run(Made(hwms), events).value));
  }
}
