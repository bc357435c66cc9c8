/**
 The pipes of the objects of a shutdown, told from the events alone: the acks a terminating object
 waits for are those of its children and of the pipes that came and have not gone.
 */
module OwnPipes {
  import opened Bytes
  import opened MTries
  import opened Owns
  import opened OwnTree

  /** The pipes that are there after an event, by what the event says. */
  function After(there: set<Pipe>, e: Event, o: Id): set<Pipe> {
    match e
    case Attach(x, p) => if x == o then there + {p} else there
    case Take(x, Bind(p)) => if x == o then there + {p} else there
    case PipeGone(x, p) => if x == o then there - {p} else there
    case _ => there
  }

  /** The pipes of an object that came and have not gone, in a run. */
  function Present(there: set<Pipe>, events: seq<Event>, o: Id): set<Pipe>
    decreases |events|
  {
    if events == [] then there else Present(After(there, events[0], o), events[1..], o)
  }

  ghost function PipesOf(s: Sys, o: Id): set<Pipe> {
    if o in s.objs then s.objs[o].pipes else {}
  }

  lemma BecomesPipes(u: Sys, x: Id, y: State, o: Id)
    requires x in u.up && x in u.mail
    ensures PipesOf(Becomes(u, x, y), o) == if o == x then y.pipes else PipesOf(u, o)
  {
  }

  lemma TakenPipes(s: Sys, x: Id, cmd: Seqd, o: Id)
    requires SameObjects(s) && x in s.objs
    ensures PipesOf(Taken(s, x, cmd), o) == After(PipesOf(s, o), Take(x, cmd), o)
  {
    var y := s.objs[x];
    var v := Put(s, x, y, s.mail[x] - multiset{cmd});
    match cmd
    case OwnCmd(c) => BecomesPipes(if y.terminating then Ask(v, {c}) else v, x, SeqnumOf(OwnOf(y, c)), o);
    case Bind(p) => BecomesPipes(v, x, SeqnumOf(AttachOf(y, p)), o);
    case Plain => BecomesPipes(v, x, SeqnumOf(y), o);
  }

  lemma AskOnePipes(u: Sys, x: Id, c: Id, o: Id)
    requires x in u.objs && x in u.up && x in u.mail
    ensures PipesOf(AskOne(u, x, c), o) == PipesOf(u, o)
  {
    var y := u.objs[x];
    BecomesPipes(if !y.terminating && c in y.owned then Ask(u, {c}) else u, x, TermReqOf(y, c), o);
  }

  lemma DoTermPipes(u: Sys, x: Id, o: Id)
    requires x in u.objs && x in u.up && x in u.mail
    ensures PipesOf(DoTerm(u, x), o) == PipesOf(u, o)
  {
    BecomesPipes(Ask(u, u.objs[x].owned), x, TermOf(u.objs[x]), o);
  }

  lemma StepPipes(s: Sys, e: Event, o: Id)
    requires SameObjects(s) && Possible(s, e) && Safe(s, e)
    ensures PipesOf(Step(s, e), o) == After(PipesOf(s, o), e, o)
  {
    match e
    case Launch(x, c) =>
    case Post(x, cmd) =>
    case Take(x, cmd) => TakenPipes(s, x, cmd, o);
    case Attach(x, p) => BecomesPipes(s, x, AttachOf(s.objs[x], p), o);
    case Terminate(x) => DoTermPipes(s, x, o);
    case TermChild(x, c) => AskOnePipes(s, x, c, o);
    case TakeUp(c) =>
      var x, v := s.objs[c].owner.value, WithUp(s, c, s.up[c][1..]);
      if s.up[c][0] == TermReq {
        AskOnePipes(v, x, c, o);
      } else {
        BecomesPipes(v, x, TermAckOf(s.objs[x]), o);
      }
    case TakeTerm(c) => DoTermPipes(TermTaken(s, c), c, o);
    case PipeGone(x, p) => BecomesPipes(s, x, PipeTerminatedOf(s.objs[x], p), o);
  }

  lemma {:induction false} RunPipes(s: Sys, events: seq<Event>, t: Sys, o: Id)
    requires Reaches(s, events, t)
    ensures PipesOf(t, o) == Present(PipesOf(s, o), events, o)
    decreases |events|
  {
    if events != [] {
      StepPipes(s, events[0], o);
      hide Step, After, PipesOf;
      RunPipes(Step(s, events[0]), events[1..], t, o);
    }
  }

  /**
   In every run: an object holds exactly the pipes that came to it and have not ended, once it is
   terminating it waits for one ack from each of them and from each child that still owes one, and
   it is destroyed as soon as there is none and no numbered command is on its way.
   */
  lemma ShutdownCounts(s: Sys, events: seq<Event>, t: Sys, o: Id)
    requires Initial(s) && Reaches(s, events, t) && o in t.objs
    ensures SameObjects(t)
    ensures t.objs[o].pipes == Present({}, events, o)
    ensures t.objs[o].terminating ==> t.objs[o].acks == |Unacked(t, o)| + |Present({}, events, o)|
    ensures t.objs[o].destroyed <==>
              t.objs[o].terminating && t.mail[o] == multiset{} && Unacked(t, o) == {} && Present({}, events, o) == {}
  {
    RunPipes(s, events, t, o);
    assert PipesOf(s, o) == {};
    InitialInv(s);
    RunInv(s, events, t);
    hide Reaches, Present, Initial;
    assert ObjInv(t, o);
    assert |t.mail[o]| == 0 <==> t.mail[o] == multiset{};
    assert |Unacked(t, o)| == 0 <==> Unacked(t, o) == {};
  }
}
