/** A reader that has gone to sleep on an empty pipe is woken up when there is something to read. */
module PipeWakeup {
  import opened Bytes
  import opened YPipes
  import opened Pipes
  import opened PipePairs

  /** The number of `activate_read` commands among some commands. */
  function Calls(s: seq<Command>): nat {
    if s == [] then 0 else Calls(s[..|s| - 1]) + if s[|s| - 1] == ActivateRead then 1 else 0
  }

  lemma CallsSnoc(s: seq<Command>, c: Command)
    ensures Calls(s + [c]) == Calls(s) + if c == ActivateRead then 1 else 0
  {
  }

  /** Those sent to an end and not processed yet. */
  function OnTheWay(s: Side): int {
    if s.seen <= |s.sent| then Calls(s.sent) - Calls(s.sent[..s.seen]) else 0
  }

  /**
   While an end may read, its `inActive` flag, the sleep bit of its queue and the wake-up calls on
   their way say the same: it is awake, asleep, or being woken up by exactly one call.
   */
  ghost predicate Alert(s: Side) {
    && s.seen <= |s.sent|
    && (s.inq.asleep ==> s.inq.pub == [])
    && (s.end.alive && s.end.state in {Active, WaitingForDelimiter} ==>
          && (s.end.inActive ==> !s.inq.asleep)
          && OnTheWay(s) == if !s.end.inActive && !s.inq.asleep then 1 else 0)
  }

  lemma {:induction false} CallsGrow(s: seq<Command>, n: nat)
    requires n <= |s|
    ensures Calls(s[..n]) <= Calls(s)
    decreases |s|
  {
    if n < |s| {
      assert s[..|s| - 1][..n] == s[..n];
      CallsGrow(s[..|s| - 1], n);
    } else {
      assert s[..n] == s;
    }
  }

  lemma ProcessAlert(s: Side, s': Side, l: Local)
    requires Alert(s) && s.end.alive && s.seen < |s.sent| && l.end == s.end && l.inq == s.inq
    requires s'.end == ProcessOf(l, s.sent[s.seen]).end && s'.inq == ProcessOf(l, s.sent[s.seen]).inq
    requires s'.sent == s.sent && s'.seen == s.seen + 1
    ensures Alert(s')
  {
    hide ProcessOf, Calls;
    var n, c := s.seen, s.sent[s.seen];
    assert s.sent[..n + 1] == s.sent[..n] + [c];
    CallsSnoc(s.sent[..n], c);
    CallsGrow(s.sent, n + 1);
    ProcessState(l, c);
  }

  lemma ProcessState(l: Local, c: Command)
    ensures var l' := ProcessOf(l, c);
            && (l'.end.state in {Active, WaitingForDelimiter} ==> l.end.state in {Active, WaitingForDelimiter})
            && (if c == PipeTermAck then !l'.end.alive && l'.inq.pub == []
                else l'.end.alive == l.end.alive && l'.inq == l.inq)
            && (if c == ActivateRead && l.end.state in {Active, WaitingForDelimiter} then l'.end.inActive
                else l'.end.inActive == l.end.inActive)
  {
  }

  lemma ReadAlert(l: Local)
    ensures forall l' :: l' == ReadOf(l) || l' == CheckReadOf(l) ==>
              && (l'.inq.asleep ==> l'.inq.pub == [] || l.inq.asleep)
              && ((l'.inq.asleep == l.inq.asleep && l'.end.inActive == l.end.inActive)
                  || (l'.inq.asleep && !l'.end.inActive && l.end.inActive))
              && l'.end.alive == l.end.alive
              && (l'.end.state in {Active, WaitingForDelimiter} ==> l.end.state in {Active, WaitingForDelimiter})
              && |l'.inq.pub| <= |l.inq.pub|
  {
  }

  lemma ReaderAlert(p: Pair, a: Action)
    requires Enabled(p, a) && Alert(p.me)
    ensures Alert(Act(p, a).me)
  {
    hide Calls;
    match a
    case DoProcess =>
      hide ProcessOf;
      ProcessAlert(p.me, Act(p, a).me, LocalOf(p));
    case DoTerminate(delay) =>
      hide TerminateOf;
      TerminateAlert(LocalOf(p), delay);
    case DoRead =>
      hide ReadOf;
      ReadAlert(LocalOf(p));
    case DoCheckRead =>
      hide CheckReadOf;
      ReadAlert(LocalOf(p));
    case _ =>
  }

  lemma TerminateAlert(l: Local, delay: bool)
    ensures var l' := TerminateOf(l, delay);
            && l'.inq == l.inq && l'.end.inActive == l.end.inActive && l'.end.alive == l.end.alive
            && (l'.end.state in {Active, WaitingForDelimiter} ==> l.end.state in {Active, WaitingForDelimiter})
  {
  }

  /** What an action sends to the reader: a wake-up call exactly if it publishes something to a sleeping reader. */
  ghost predicate Rouses(q: Queue<Item>, out: seq<Command>, q': Queue<Item>, out': seq<Command>) {
    && out <= out'
    && (q'.asleep ==> q.asleep && q'.pub == q.pub)
    && Calls(out') == Calls(out) + if q.asleep && !q'.asleep then 1 else 0
  }

  lemma FlushRouses(l: Local)
    ensures Rouses(l.outq, l.out, FlushOf(l).outq, FlushOf(l).out)
  {
  }

  lemma TerminateRouses(l: Local, delay: bool)
    ensures Rouses(l.outq, l.out, TerminateOf(l, delay).outq, TerminateOf(l, delay).out)
  {
    var l1 := l.(end := l.end.(delay := delay));
    if l.end.state !in {TermReqSent1, TermReqSent2, TermAckSent} {
      CallsSnoc(l.out, PipeTerm);
      CallsSnoc(l.out, PipeTermAck);
      var l2 := StopOf(l1);
      assert Rouses(l.outq, l.out, l2.outq, l2.out);
      var l3 := l2.(end := l2.end.(outActive := false));
      FlushRouses(l3.(outq := Written(RolledBack(l3.outq), Delimiter, false)));
    }
  }

  lemma WriterRouses(p: Pair, a: Action)
    requires Enabled(p, a)
    ensures Rouses(p.peer.inq, p.peer.sent, Act(p, a).peer.inq, Act(p, a).peer.sent)
  {
    hide Calls;
    var l := LocalOf(p);
    match a
    case DoRead =>
      hide ReadOf;
      ReadRouses(l);
    case DoCheckRead =>
      hide CheckReadOf;
      ReadRouses(l);
    case DoFlush =>
      hide FlushOf;
      FlushRouses(l);
    case DoTerminate(delay) =>
      hide TerminateOf;
      TerminateRouses(l, delay);
    case DoProcess => CallsSnoc(l.out, PipeTermAck);
    case _ =>
  }

  lemma ReadRouses(l: Local)
    ensures Rouses(l.outq, l.out, ReadOf(l).outq, ReadOf(l).out)
    ensures Rouses(l.outq, l.out, CheckReadOf(l).outq, CheckReadOf(l).out)
  {
  }

  lemma RousedAlert(s: Side, s': Side)
    requires Alert(s) && Rouses(s.inq, s.sent, s'.inq, s'.sent) && s'.end == s.end && s'.seen == s.seen
    ensures Alert(s')
  {
    assert s'.sent[..s.seen] == s.sent[..s.seen];
  }

  lemma AlertKept(p: Pair, e: Event)
    requires Alert(p.me) && Alert(p.peer) && Possible(p, e)
    ensures Alert(Step(p, e).me) && Alert(Step(p, e).peer)
  {
    hide Effect, Alert;
    var q := if e.other then Flip(p) else p;
    ReaderAlert(q, e.action);
    WriterRouses(q, e.action);
    RousedAlert(q.peer, Act(q, e.action).peer);
  }

  lemma {:induction false} AlertAlways(p: Pair, events: seq<Event>)
    requires Alert(p.me) && Alert(p.peer) && Run(p, events).Some?
    ensures Alert(Run(p, events).value.me) && Alert(Run(p, events).value.peer)
    decreases |events|
  {
    if events != [] {
      AlertKept(p, events[0]);
      AlertAlways(Step(p, events[0]), events[1..]);
    }
  }

  lemma {:induction false} CallOnTheWay(s: seq<Command>, n: nat)
    requires n <= |s| && Calls(s) > Calls(s[..n])
    ensures exists i :: n <= i < |s| && s[i] == ActivateRead
    decreases |s|
  {
    assert s[..|s|] == s;
    if s[|s| - 1] != ActivateRead {
      var t := s[..|s| - 1];
      assert t[..n] == s[..n];
      CallOnTheWay(t, n);
      var i :| n <= i < |t| && t[i] == ActivateRead;
      assert s[i] == ActivateRead;
    } else {
      assert n < |s|;
    }
  }

  /**
   In every state of every run, an end that may still read and has something to read is either
   awake or has a wake-up call on its way.
   */
  lemma NoLostWakeup(hwms: (int, int), events: seq<Event>)
    requires Run(Made(hwms), events).Some?
    ensures Called(Run(Made(hwms), events).value.me) && Called(Run(Made(hwms), events).value.peer)
  {
    AlertAlways(Made(hwms), events);
    var p := Run(Made(hwms), events).value;
    CalledHere(p.me);
    CalledHere(p.peer);
  }

  ghost predicate Called(s: Side) {
    s.end.alive && s.end.state in {Active, WaitingForDelimiter} && s.inq.pub != [] && !s.end.inActive ==>
      exists i :: s.seen <= i < |s.sent| && s.sent[i] == ActivateRead
  }

  lemma CalledHere(s: Side)
    requires Alert(s)
    ensures Called(s)
  {
    if s.end.alive && s.end.state in {Active, WaitingForDelimiter} && s.inq.pub != [] && !s.end.inActive {
      CallOnTheWay(s.sent, s.seen);
    }
  }
}
