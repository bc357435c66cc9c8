/**
 What the users of a pipe pair see of it: a flush puts every complete message before the reader, and
 what the reads of a run return is what was written.
 */
module PipeDelivery {
  import opened Bytes
  import opened YPipes
  import opened Pipes
  import opened PipePairs
  import opened PipeFlow
  import opened PipeEnding

  /** The two actions that publish: a flush, and the end of the stream. */
  predicate Publishing(e: End, a: Action) {
    e.hasOut && (a.DoFlush? || (a.DoTerminate? && Closes(e, a.delay)))
  }

  lemma FlushEmpties(l: Local)
    requires l.end.hasOut && l.end.state != TermAckSent
    ensures FlushOf(l).outq.pend == [] && FlushOf(l).outq.pub == l.outq.pub + l.outq.pend
  {
    assert l.outq.pend == [] ==> l.outq.pub + l.outq.pend == l.outq.pub;
  }

  lemma TerminateEmpties(l: Local, delay: bool)
    requires l.end.hasOut && Closes(l.end, delay)
    ensures TerminateOf(l, delay).outq.pend == []
  {
    var l1 := StopOf(l.(end := l.end.(delay := delay)));
    assert l1.end.hasOut && l1.end.state != TermAckSent;
    var l2 := l1.(end := l1.end.(outActive := false));
    FlushEmpties(l2.(outq := Written(RolledBack(l2.outq), Delimiter, false)));
  }

  lemma PublishedHere(p: Pair, a: Action)
    requires Enabled(p, a) && Ordered(p) && Publishing(p.me.end, a)
    ensures var q := Act(p, a); q.peer.end.alive ==> q.peer.inq.pend == []
  {
    if a.DoFlush? {
      assert p.me.end.state != TermAckSent;
      FlushEmpties(LocalOf(p));
    } else {
      TerminateEmpties(LocalOf(p), a.delay);
    }
  }

  lemma JoinsUp(s: Side, writer: End)
    requires InOrder(s, writer) && s.end.alive && s.inq.pend == []
    ensures s.got + s.inq.pub == s.whole
  {
    assert s.got + s.inq.pub + s.inq.pend == s.got + s.inq.pub;
  }

  /**
   In every run: right after a flush, and after the `terminate` that closes the stream, the other
   end can read every complete message it has not read yet, and nothing else.
   */
  lemma FlushDelivers(hwms: (int, int), events: seq<Event>, e: Event)
    requires Run(Made(hwms), events).Some?
    requires var p := Run(Made(hwms), events).value;
             Possible(p, e) && Publishing((if e.other then p.peer else p.me).end, e.action)
    ensures var p := Step(Run(Made(hwms), events).value, e);
            var reader := if e.other then p.me else p.peer;
            reader.end.alive ==> reader.got + reader.inq.pub == reader.whole
  {
    EndingAlways(Made(hwms), events);
    var p := Run(Made(hwms), events).value;
    var q := if e.other then Flip(p) else p;
    OrderedKept(p, e);
    PublishedHere(q, e.action);
    var r := Act(q, e.action);
    if r.peer.end.alive {
      JoinsUp(r.peer, r.me.end);
    }
  }

  // ------------------------------------------------------------------ what reads return

  /** The parts that an action of an end returns to its user. */
  function Returned(p: Pair, a: Action): seq<Item> {
    if a.DoRead? && ReadPart(LocalOf(p)).Some? then [ReadPart(LocalOf(p)).value] else []
  }

  /** The parts returned to the user of one end in a run, in order. */
  function ReturnedIn(p: Pair, events: seq<Event>, other: bool): seq<Item>
    requires Run(p, events).Some?
    decreases |events|
  {
    if events == [] then [] else
      var e := events[0];
      (if e.other == other then Returned(if other then Flip(p) else p, e.action) else [])
      + ReturnedIn(Step(p, e), events[1..], other)
  }

  /** A stream without its delimiter. */
  function Parts(s: seq<Item>): seq<Item> {
    if s == [] then [] else (if s[0].Data? then [s[0]] else []) + Parts(s[1..])
  }

  lemma {:induction false} PartsAdd(a: seq<Item>, b: seq<Item>)
    ensures Parts(a + b) == Parts(a) + Parts(b)
    decreases |a|
  {
    if a == [] {
      assert a + b == b;
    } else {
      PartsAdd(a[1..], b);
      assert (a + b)[1..] == a[1..] + b;
    }
  }

  /** What enters the history of an end is what its user gets, and the delimiter. */
  lemma GotReturned(p: Pair, a: Action)
    requires Enabled(p, a)
    ensures Parts(Got(p, a)) == Returned(p, a)
  {
    var g := Got(p, a);
    if g != [] {
      assert g == [g[0]] && g[1..] == [];
    }
  }

  lemma {:induction false} ReturnedRun(p: Pair, events: seq<Event>, other: bool)
    requires Run(p, events).Some?
    ensures var t := Run(p, events).value;
            var got, got' := (if other then p.peer else p.me).got, (if other then t.peer else t.me).got;
            Parts(got') == Parts(got) + ReturnedIn(p, events, other)
    decreases |events|
  {
    if events != [] {
      var e := events[0];
      var q := if e.other then Flip(p) else p;
      ReturnedRun(Step(p, e), events[1..], other);
      PartsAdd(q.me.got, Got(q, e.action));
      GotReturned(q, e.action);
      assert Act(q, e.action).me.got == q.me.got + Got(q, e.action) && Act(q, e.action).peer.got == q.peer.got;
    }
  }

  /** In every run, the reads of an end have returned its history without the delimiter, at both ends. */
  lemma ReadsReturnGot(hwms: (int, int), events: seq<Event>)
    requires Run(Made(hwms), events).Some?
    ensures var p := Run(Made(hwms), events).value;
            && ReturnedIn(Made(hwms), events, false) == Parts(p.me.got)
            && ReturnedIn(Made(hwms), events, true) == Parts(p.peer.got)
  {
    ReturnedRun(Made(hwms), events, false);
    ReturnedRun(Made(hwms), events, true);
  }

  lemma {:induction false} AllParts(s: seq<Item>)
    requires Delimiter !in s
    ensures Parts(s) == s
  {
    if s != [] {
      assert s[0] in s;
      AllParts(s[1..]);
    }
  }

  /** A closed stream is its parts and the delimiter. */
  lemma ClosedParts(w: seq<Item>)
    requires ClosedStream(w, true)
    ensures w != [] && Parts(w) == w[..|w| - 1]
  {
    var n := |w| - 1;
    assert w == w[..n] + [Delimiter];
    PartsAdd(w[..n], [Delimiter]);
    AllParts(w[..n]);
  }

  /**
   When one end terminates and the user of the other is patient, the acknowledgement means that the
   reads of that user have returned every complete message written, in order and nothing else.
   */
  lemma NothingLostToUser(hwms: (int, int), events: seq<Event>)
    requires Patient(events) && Run(Made(hwms), events).Some?
    ensures var p := Run(Made(hwms), events).value;
            var n := |p.peer.whole| - 1;
            AckSent(p.peer.end) ==>
              n >= 0 && p.peer.whole[n] == Delimiter && ReturnedIn(Made(hwms), events, true) == p.peer.whole[..n]
  {
    hide Run, ReturnedIn, Patient;
    NothingLost(hwms, events);
    ReadsReturnGot(hwms, events);
    var p := Run(Made(hwms), events).value;
    if AckSent(p.peer.end) {
      ClosedParts(p.peer.whole);
    }
  }
}
