/** Termination comes to its end: when nothing is left to process and to read, both ends are gone. */
module PipeEnding {
  import opened Bytes
  import opened YPipes
  import opened Pipes
  import opened PipePairs
  import opened PipeFlow

  /** An end that still waits has not read the delimiter, and an end that asked for termination has written it. */
  ghost predicate Marked(s: Side, peer: Side) {
    && (s.end.state in {Active, WaitingForDelimiter} ==> Delimiter !in s.got)
    && (TermSent(s.end) ==> Delimiter in peer.whole)
  }

  ghost predicate Ending(p: Pair) {
    Ordered(p) && Marked(p.me, p.peer) && Marked(p.peer, p.me)
  }

  /** Reading the delimiter ends the waiting. */
  lemma GotMarks(p: Pair, a: Action)
    requires Enabled(p, a) && (a.DoRead? || a.DoCheckRead?) && Delimiter in Got(p, a)
    ensures Act(p, a).me.end.state !in {Active, WaitingForDelimiter}
  {
  }

  /** No action but a read takes anything, and none leads back to waiting. */
  lemma WaitsAsBefore(p: Pair, a: Action)
    requires Enabled(p, a) && Act(p, a).me.end.state in {Active, WaitingForDelimiter}
    ensures p.me.end.state in {Active, WaitingForDelimiter}
  {
    if a.DoTerminate? {
      TerminateWaits(LocalOf(p), a.delay);
    }
  }

  lemma TerminateWaits(l: Local, delay: bool)
    requires TerminateOf(l, delay).end.state in {Active, WaitingForDelimiter}
    ensures l.end.state in {Active, WaitingForDelimiter}
  {
    hide Flushed, Written, RolledBack, WakesReader;
  }

  lemma TerminateCloses(l: Local, delay: bool)
    requires !TermSent(l.end) && TermSent(TerminateOf(l, delay).end)
    ensures l.end.state in {Active, DelimiterReceived}
  {
  }

  /** Nothing but `terminate` starts a termination. */
  lemma OnlyTerminate(p: Pair, a: Action)
    requires Enabled(p, a) && !TermSent(p.me.end) && TermSent(Act(p, a).me.end)
    requires a.DoProcess? ==> Expects(p.me.end, p.me.sent[p.me.seen])
    ensures a.DoTerminate?
  {
  }

  /** The request for termination goes out together with the delimiter. */
  lemma TermMarks(p: Pair, a: Action)
    requires Enabled(p, a) && Terminating(p) && !TermSent(p.me.end) && TermSent(Act(p, a).me.end)
    ensures Delimiter in Act(p, a).peer.whole
  {
    if a.DoProcess? {
      NextExpected(p);
    }
    OnlyTerminate(p, a);
    TerminateCloses(LocalOf(p), a.delay);
    var whole := Stream(p, a).0;
    hide Effect;
    assert Closes(p.me.end, a.delay);
    assert whole == p.peer.whole + [Delimiter];
    assert whole[|p.peer.whole|] == Delimiter;
  }

  /** What was written stays written. */
  lemma WholeGrows(p: Pair, a: Action)
    requires Enabled(p, a)
    ensures p.peer.whole <= Act(p, a).peer.whole
  {
  }

  lemma MarkedKept(p: Pair, a: Action)
    requires Enabled(p, a) && Ending(p)
    ensures var q := Act(p, a); Marked(q.me, q.peer) && Marked(q.peer, q.me)
  {
    var q := Act(p, a);
    WholeGrows(p, a);
    if q.me.end.state in {Active, WaitingForDelimiter} {
      WaitsAsBefore(p, a);
      if Delimiter in Got(p, a) {
        GotMarks(p, a);
      }
    }
    if TermSent(q.me.end) && !TermSent(p.me.end) {
      TermMarks(p, a);
    }
    assert q.peer.end == p.peer.end && q.peer.got == p.peer.got && q.me.whole == p.me.whole;
    hide Effect, Stream, Ordered;
  }

  lemma {:induction false} EndingAlways(p: Pair, events: seq<Event>)
    requires Ending(p) && Run(p, events).Some?
    ensures Ending(Run(p, events).value)
    decreases |events|
  {
    if events != [] {
      var e := events[0];
      OrderedKept(p, e);
      MarkedKept(if e.other then Flip(p) else p, e.action);
      EndingAlways(Step(p, e), events[1..]);
    }
  }

  lemma CommandsSame(term: bool, ack: bool, term': bool, ack': bool)
    requires Commands(term, ack) == Commands(term', ack')
    ensures term == term' && ack == ack'
  {
    assert Commands(term, ack) != [] ==> Commands(term, ack)[0] == Commands(term', ack')[0];
  }

  /** Every command has been processed, at both ends. */
  predicate Processed(p: Pair) {
    p.me.seen == |p.me.sent| && p.peer.seen == |p.peer.sent|
  }

  /** With every command processed, each end knows exactly what the other has sent. */
  lemma ProcessedKnows(p: Pair)
    requires Terminating(p) && p.me.seen == |p.me.sent|
    ensures TermSeen(p.me.end) == TermSent(p.peer.end) && !p.me.end.alive == AckSent(p.peer.end)
  {
    assert p.me.sent[..p.me.seen] == p.me.sent;
    CommandsSame(TermSeen(p.me.end), !p.me.end.alive, TermSent(p.peer.end), AckSent(p.peer.end));
  }

  /** Once `me` has asked, every command is processed and `peer` has read its queue to the end, both are gone. */
  ghost predicate Completes(p: Pair) {
    Processed(p) && TermSent(p.me.end) && (p.peer.end.alive ==> p.peer.inq.pub == [] && p.peer.inq.pend == []) ==>
      !p.me.end.alive && !p.peer.end.alive
  }

  lemma CompletesHere(p: Pair)
    requires Ending(p)
    ensures Completes(p)
  {
    if Processed(p) && TermSent(p.me.end) && (p.peer.end.alive ==> p.peer.inq.pub == [] && p.peer.inq.pend == []) {
      ProcessedKnows(p);
      ProcessedKnows(Flip(p));
      if p.peer.end.alive {
        ReadToEnd(p.peer, p.me.end);
      }
    }
  }

  lemma ReadToEnd(s: Side, writer: End)
    requires InOrder(s, writer) && s.end.alive && s.inq.pub == [] && s.inq.pend == []
    ensures s.got == s.whole
  {
    assert s.got + s.inq.pub + s.inq.pend == s.got;
  }

  /** Termination comes to its end, whichever end asks for it, in every state of every run. */
  lemma TerminationCompletes(hwms: (int, int), events: seq<Event>)
    requires Run(Made(hwms), events).Some?
    ensures Completes(Run(Made(hwms), events).value) && Completes(Flip(Run(Made(hwms), events).value))
  {
    EndingAlways(Made(hwms), events);
    CompletesHere(Run(Made(hwms), events).value);
    CompletesHere(Flip(Run(Made(hwms), events).value));
  }

  // ------------------------------------------------------------------ rollback

  /** In every run, whatever a rollback takes back is part of an unfinished message, at both ends. */
  lemma RollbackTakesParts(hwms: (int, int), events: seq<Event>)
    requires Run(Made(hwms), events).Some?
    ensures var p := Run(Made(hwms), events).value;
            && (p.me.end.hasOut ==> forall x | x in p.peer.inq.part :: Incomplete(x))
            && (p.peer.end.hasOut ==> forall x | x in p.me.inq.part :: Incomplete(x))
  {
    EndingAlways(Made(hwms), events);
  }
}
