/**
 The shutdown of a tree of objects: every interleaving of launches, sequence-numbered commands,
 termination requests, pipes that come and go, and acks.
 */
module OwnTree {
  import opened Bytes
  import opened MTries
  import opened Owns

  /** A sequence-numbered command: `own`, `bind`, or another one. */
  datatype Seqd = OwnCmd(child: Id) | Bind(pipe: Pipe) | Plain

  /** A command from a child to its owner. */
  datatype Up = TermReq | TermAck

  /**
   `mail`: the numbered commands on their way to each object, in any order. `up`: what each object
   has on its way to its owner, in order. `terms`: the objects with a `term` on its way.
   */
  datatype Sys = Sys(objs: map<Id, State>, mail: map<Id, multiset<Seqd>>, up: map<Id, seq<Up>>,
                     terms: set<Id>, termsSent: map<Id, nat>)

  datatype Event =
    | Launch(obj: Id, child: Id)
    | Post(obj: Id, cmd: Seqd)
    | Take(obj: Id, cmd: Seqd)
    | Attach(obj: Id, pipe: Pipe)
    | Terminate(obj: Id)
    | TermChild(obj: Id, child: Id)
    | TakeUp(child: Id)
    | TakeTerm(obj: Id)
    | PipeGone(obj: Id, pipe: Pipe)

  ghost predicate Alive(s: Sys, o: Id) {
    o in s.objs && !s.objs[o].destroyed
  }

  ghost predicate SameObjects(s: Sys) {
    s.mail.Keys == s.objs.Keys && s.up.Keys == s.objs.Keys && s.termsSent.Keys == s.objs.Keys && s.terms <= s.objs.Keys
  }

  /** Whether an event can happen. What arrives at an object does so whether it is still there or not. */
  ghost predicate Possible(s: Sys, e: Event)
    requires SameObjects(s)
  {
    match e
    case Launch(o, c) => Alive(s, o) && c !in s.objs
    case Post(o, cmd) =>
      Alive(s, o) && !cmd.OwnCmd? && (cmd.Bind? ==> cmd.pipe !in s.objs[o].pipes && cmd !in s.mail[o])
    case Take(o, cmd) => o in s.objs && cmd in s.mail[o]
    case Attach(o, p) => Alive(s, o) && p !in s.objs[o].pipes && Bind(p) !in s.mail[o]
    case Terminate(o) => Alive(s, o)
    case TermChild(o, c) => Alive(s, o)
    case TakeUp(c) => c in s.objs && s.up[c] != []
    case TakeTerm(c) => c in s.terms
    case PipeGone(o, p) => o in s.objs && p in s.objs[o].pipes
  }

  /** The object that an event happens at is there, and the assertions of the handlers hold. */
  ghost predicate Safe(s: Sys, e: Event)
    requires SameObjects(s) && Possible(s, e)
  {
    match e
    case Take(o, _) => Alive(s, o)
    case TakeUp(c) =>
      && s.objs[c].owner.Some? && Alive(s, s.objs[c].owner.value)
      && (s.up[c][0] == TermAck ==> s.objs[s.objs[c].owner.value].acks > 0)
    case TakeTerm(c) => Alive(s, c) && !s.objs[c].terminating
    case PipeGone(o, _) => Alive(s, o) && (s.objs[o].terminating ==> s.objs[o].acks > 0)
    case _ => true
  }

  function Put(s: Sys, o: Id, x: State, mail: multiset<Seqd>): Sys {
    s.(objs := s.objs[o := x], mail := s.mail[o := mail])
  }

  function WithUp(s: Sys, c: Id, up: seq<Up>): Sys {
    s.(up := s.up[c := up])
  }

  /** The state of an object changes; at its end it sends its ack. */
  function Becomes(s: Sys, o: Id, x: State): Sys
    requires o in s.up && o in s.mail
  {
    var t := Put(s, o, x, s.mail[o]);
    if x.destroyed && x.owner.Some? then WithUp(t, o, s.up[o] + [TermAck]) else t
  }

  /** Children are sent `term`. */
  function Ask(s: Sys, children: set<Id>): Sys {
    s.(terms := s.terms + children,
       termsSent := map c | c in s.termsSent :: if c in children then s.termsSent[c] + 1 else s.termsSent[c])
  }

  function AskOne(s: Sys, o: Id, c: Id): Sys
    requires o in s.objs && o in s.up && o in s.mail
  {
    var x := s.objs[o];
    Becomes(if !x.terminating && c in x.owned then Ask(s, {c}) else s, o, TermReqOf(x, c))
  }

  function DoTerm(s: Sys, o: Id): Sys
    requires o in s.objs && o in s.up && o in s.mail
  {
    Becomes(Ask(s, s.objs[o].owned), o, TermOf(s.objs[o]))
  }

  function Sent(s: Sys, o: Id, cmd: Seqd): Sys
    requires o in s.objs && o in s.mail
  {
    Put(s, o, s.objs[o].(sent := s.objs[o].sent + 1), s.mail[o] + multiset{cmd})
  }

  function Taken(s: Sys, o: Id, cmd: Seqd): Sys
    requires o in s.objs && o in s.mail && o in s.up
  {
    var x := s.objs[o];
    var t := Put(s, o, x, s.mail[o] - multiset{cmd});
    match cmd
    case OwnCmd(c) => Becomes(if x.terminating then Ask(t, {c}) else t, o, SeqnumOf(OwnOf(x, c)))
    case Bind(p) => Becomes(t, o, SeqnumOf(AttachOf(x, p)))
    case Plain => Becomes(t, o, SeqnumOf(x))
  }

  ghost function Step(s: Sys, e: Event): Sys
    requires SameObjects(s) && Possible(s, e) && Safe(s, e)
  {
    match e
    case Launch(o, c) =>
      Launched(s, o, c)
    case Post(o, cmd) => Sent(s, o, cmd)
    case Take(o, cmd) => Taken(s, o, cmd)
    case Attach(o, p) => Becomes(s, o, AttachOf(s.objs[o], p))
    case Terminate(o) =>
      if s.objs[o].terminating then s
      else if s.objs[o].owner == None then DoTerm(s, o)
      else WithUp(s, o, s.up[o] + [TermReq])
    case TermChild(o, c) => AskOne(s, o, c)
    case TakeUp(c) =>
      var o, t := s.objs[c].owner.value, WithUp(s, c, s.up[c][1..]);
      if s.up[c][0] == TermReq then AskOne(t, o, c) else Becomes(t, o, TermAckOf(s.objs[o]))
    case TakeTerm(c) => DoTerm(TermTaken(s, c), c)
    case PipeGone(o, p) => Becomes(s, o, PipeTerminatedOf(s.objs[o], p))
  }

  // ------------------------------------------------------------------ the invariant

  ghost predicate IsChild(s: Sys, c: Id, o: Id) {
    c in s.objs && s.objs[c].owner == Some(o)
  }

  /** Whether the owner waits for the ack of a child: from the `term` it sent to the ack it gets. */
  ghost predicate Awaited(s: Sys, c: Id)
    requires SameObjects(s) && c in s.objs
  {
    c in s.terms || (s.objs[c].terminating && (s.objs[c].destroyed ==> s.up[c] != []))
  }

  ghost function Unacked(s: Sys, o: Id): set<Id>
    requires SameObjects(s)
  {
    set c | c in s.objs && IsChild(s, c, o) && Awaited(s, c)
  }

  function One(b: bool): nat {
    if b then 1 else 0
  }

  /** The counters of an object, given the commands on their way to it and the acks it waits for. */
  ghost predicate ObjOk(x: State, mail: multiset<Seqd>, unacked: nat) {
    && |mail| == x.sent - x.processed
    && x.acks == unacked + (if x.terminating then |x.pipes| else 0)
    && (x.terminating ==> x.owned == {})
    && (x.destroyed <==> x.terminating && x.sent == x.processed && x.acks == 0)
    && (forall p :: Bind(p) in mail ==> p !in x.pipes && mail[Bind(p)] == 1)
  }

  /** The ack is the last thing an object sends. */
  ghost predicate UpOk(up: seq<Up>, destroyed: bool) {
    && (forall i :: 0 <= i < |up| && up[i] == TermAck ==> i == |up| - 1 && destroyed)
    && (destroyed && up != [] ==> up[|up| - 1] == TermAck)
  }

  /** A child is at one point of its life: launched, owned, asked to terminate, or terminating. */
  ghost predicate ChildOk(points: nat, asked: bool, termsSent: nat, x: State, up: seq<Up>) {
    && points + One(asked) + One(x.terminating) == 1 && (x.destroyed ==> x.terminating)
    && termsSent == One(asked || x.terminating)
    && UpOk(up, x.destroyed)
  }

  /** How often a child is launched or owned by an object. */
  ghost function Points(s: Sys, o: Id, c: Id): nat
    requires SameObjects(s) && o in s.objs
  {
    s.mail[o][OwnCmd(c)] + One(c in s.objs[o].owned)
  }

  ghost predicate ObjInv(s: Sys, o: Id)
    requires SameObjects(s) && o in s.objs
  {
    && ObjOk(s.objs[o], s.mail[o], |Unacked(s, o)|)
    && (s.objs[o].owner == None ==> s.up[o] == [] && o !in s.terms)
    && (s.objs[o].owner.Some? ==> s.objs[o].owner.value in s.objs && s.objs[o].owner.value != o)
  }

  ghost predicate PairInv(s: Sys, o: Id, c: Id)
    requires SameObjects(s) && o in s.objs
  {
    if IsChild(s, c, o) then ChildOk(Points(s, o, c), c in s.terms, s.termsSent[c], s.objs[c], s.up[c])
    else Points(s, o, c) == 0
  }

  ghost predicate Inv(s: Sys) {
    && SameObjects(s)
    && (forall o | o in s.objs :: ObjInv(s, o))
    && (forall o, c | o in s.objs :: PairInv(s, o, c))
  }

  /** A destroyed object has nothing on its way to it and nothing left to wait for. */
  lemma DestroyedIsDone(s: Sys, o: Id)
    requires Inv(s) && o in s.objs && s.objs[o].destroyed
    ensures s.mail[o] == multiset{} && s.objs[o].owned == {} && s.objs[o].pipes == {} && o !in s.terms
    ensures forall c | IsChild(s, c, o) :: s.objs[c].destroyed && s.up[c] == []
  {
    assert ObjInv(s, o);
    if s.objs[o].owner.Some? {
      assert PairInv(s, s.objs[o].owner.value, o);
    }
    forall c | IsChild(s, c, o) ensures s.objs[c].destroyed && s.up[c] == [] {
      assert PairInv(s, o, c);
      assert c !in Unacked(s, o);
    }
  }

  lemma TakeUpSafe(s: Sys, c: Id)
    requires Inv(s) && Possible(s, TakeUp(c))
    ensures Safe(s, TakeUp(c))
  {
    assert ObjInv(s, c);
    var o := s.objs[c].owner.value;
    assert ObjInv(s, o) && IsChild(s, c, o) && PairInv(s, o, c);
    if s.objs[o].destroyed {
      DestroyedIsDone(s, o);
    }
    if s.up[c][0] == TermAck {
      assert c in Unacked(s, o);
    }
  }

  lemma TakeTermSafe(s: Sys, c: Id)
    requires Inv(s) && Possible(s, TakeTerm(c))
    ensures Safe(s, TakeTerm(c))
  {
    assert ObjInv(s, c);
    assert PairInv(s, s.objs[c].owner.value, c);
  }

  lemma PipeGoneSafe(s: Sys, o: Id, p: Pipe)
    requires Inv(s) && Possible(s, PipeGone(o, p))
    ensures Safe(s, PipeGone(o, p))
  {
  }

  /** Whatever arrives finds its object alive, and no assertion fails. */
  lemma AlwaysSafe(s: Sys, e: Event)
    requires Inv(s) && Possible(s, e)
    ensures Safe(s, e)
  {
    match e
    case Take(o, _) => assert ObjInv(s, o);
    case TakeUp(c) => TakeUpSafe(s, c);
    case TakeTerm(c) => TakeTermSafe(s, c);
    case PipeGone(o, p) => PipeGoneSafe(s, o, p);
    case _ =>
  }

  // ------------------------------------------------------------------ the counters of one object

  lemma SeqnumOk(x: State, mail: multiset<Seqd>, n: nat, cmd: Seqd)
    requires ObjOk(x, mail, n) && cmd in mail
    ensures !x.destroyed && ObjOk(SeqnumOf(x), mail - multiset{cmd}, n)
  {
  }

  lemma OwnOk(x: State, mail: multiset<Seqd>, n: nat, c: Id)
    requires ObjOk(x, mail, n) && OwnCmd(c) in mail
    ensures !x.destroyed && ObjOk(SeqnumOf(OwnOf(x, c)), mail - multiset{OwnCmd(c)}, n + One(x.terminating))
  {
  }

  lemma BindOk(x: State, mail: multiset<Seqd>, n: nat, p: Pipe)
    requires ObjOk(x, mail, n) && Bind(p) in mail
    ensures !x.destroyed && ObjOk(SeqnumOf(AttachOf(x, p)), mail - multiset{Bind(p)}, n)
  {
  }

  lemma AttachOk(x: State, mail: multiset<Seqd>, n: nat, p: Pipe)
    requires ObjOk(x, mail, n) && !x.destroyed && p !in x.pipes && Bind(p) !in mail
    ensures ObjOk(AttachOf(x, p), mail, n)
  {
  }

  lemma TermReqOk(x: State, mail: multiset<Seqd>, n: nat, c: Id)
    requires ObjOk(x, mail, n) && !x.destroyed
    ensures ObjOk(TermReqOf(x, c), mail, n + One(!x.terminating && c in x.owned))
  {
  }

  lemma TermOk(x: State, mail: multiset<Seqd>, n: nat)
    requires ObjOk(x, mail, n) && !x.terminating
    ensures ObjOk(TermOf(x), mail, n + |x.owned|)
  {
  }

  lemma TermAckOk(x: State, mail: multiset<Seqd>, n: nat)
    requires ObjOk(x, mail, n) && n > 0
    ensures x.acks > 0 && ObjOk(TermAckOf(x), mail, n - 1)
  {
  }

  lemma PipeGoneOk(x: State, mail: multiset<Seqd>, n: nat, p: Pipe)
    requires ObjOk(x, mail, n) && p in x.pipes
    ensures (x.terminating ==> x.acks > 0) && ObjOk(PipeTerminatedOf(x, p), mail, n)
  {
  }

  lemma SentOk(x: State, mail: multiset<Seqd>, n: nat, cmd: Seqd)
    requires ObjOk(x, mail, n) && !x.destroyed && (cmd.Bind? ==> cmd.pipe !in x.pipes && cmd !in mail)
    ensures ObjOk(x.(sent := x.sent + 1), mail + multiset{cmd}, n)
  {
  }

  // ------------------------------------------------------------------ steps around one object

  /** What the owner of an object and the object have on their way to each other is the same. */
  ghost predicate SameLinks(s: Sys, t: Sys, c: Id)
    requires SameObjects(s) && SameObjects(t) && c in s.objs && c in t.objs
  {
    (c in t.terms <==> c in s.terms) && t.up[c] == s.up[c] && t.termsSent[c] == s.termsSent[c]
  }

  /** Only the object `o`, commands to it, and links to its children have changed. */
  ghost predicate Around(s: Sys, t: Sys, o: Id) {
    && SameObjects(s) && SameObjects(t) && o in s.objs && o in t.objs
    && t.objs == s.objs[o := t.objs[o]] && t.objs[o].owner == s.objs[o].owner
    && t.mail == s.mail[o := t.mail[o]]
    && (forall c | c in s.objs && c != o && !IsChild(s, c, o) :: SameLinks(s, t, c))
  }

  /** Its owner waits for an object as before. */
  ghost predicate Steady(s: Sys, t: Sys, o: Id)
    requires SameObjects(s) && SameObjects(t) && o in s.objs && o in t.objs
  {
    s.objs[o].owner.Some? ==> (Awaited(t, o) <==> Awaited(s, o))
  }

  /** What the invariant says about one object, its children and its owner. */
  ghost predicate Center(s: Sys, o: Id) {
    && SameObjects(s) && o in s.objs && ObjInv(s, o)
    && (forall c :: PairInv(s, o, c))
    && (s.objs[o].owner.Some? ==> PairInv(s, s.objs[o].owner.value, o))
  }

  lemma InvCenter(s: Sys, o: Id)
    requires Inv(s) && o in s.objs
    ensures Center(s, o)
  {
  }

  lemma CenterObj(s: Sys, o: Id)
    requires Center(s, o)
    ensures SameObjects(s) && o in s.objs && o in s.mail && o in s.up
    ensures ObjOk(s.objs[o], s.mail[o], |Unacked(s, o)|)
  {
  }

  lemma UnackedElsewhere(s: Sys, t: Sys, o: Id, x: Id)
    requires Around(s, t, o) && Steady(s, t, o) && x in s.objs && x != o
    ensures Unacked(t, x) == Unacked(s, x)
  {
  }

  lemma ElsewhereObj(s: Sys, t: Sys, o: Id, x: Id)
    requires Around(s, t, o) && Steady(s, t, o) && x in s.objs && x != o && ObjInv(s, x)
    ensures ObjInv(t, x)
  {
    UnackedElsewhere(s, t, o, x);
    hide ObjOk, Unacked, Steady;
    assert IsChild(s, x, o) || SameLinks(s, t, x);
  }

  lemma ElsewherePair(s: Sys, t: Sys, o: Id, x: Id, c: Id)
    requires Around(s, t, o) && x in s.objs && x != o && c != o && PairInv(s, x, c)
    ensures PairInv(t, x, c)
  {
  }

  lemma ElsewhereNotOwner(s: Sys, t: Sys, o: Id, x: Id)
    requires Around(s, t, o) && x in s.objs && x != o && PairInv(s, x, o) && !IsChild(s, o, x)
    ensures PairInv(t, x, o)
  {
  }

  /** What has to be shown for a step around one object. */
  lemma Assemble(s: Sys, t: Sys, o: Id)
    requires Inv(s) && Around(s, t, o) && Steady(s, t, o) && Center(t, o)
    ensures Inv(t)
  {
    hide ObjInv, PairInv, Steady, SameLinks;
    forall x | x in t.objs ensures ObjInv(t, x) {
      assert ObjInv(s, x);
      if x != o {
        ElsewhereObj(s, t, o, x);
      }
    }
    forall x, c | x in t.objs ensures PairInv(t, x, c) {
      if x != o {
        assert PairInv(s, x, c);
        if c != o {
          ElsewherePair(s, t, o, x, c);
        } else if !IsChild(s, o, x) {
          ElsewhereNotOwner(s, t, o, x);
        }
      }
    }
  }

  // ------------------------------------------------------------------ the parts of a step

  lemma AroundPut(s: Sys, o: Id, x: State, mail: multiset<Seqd>)
    requires SameObjects(s) && o in s.objs && x.owner == s.objs[o].owner
    ensures Around(s, Put(s, o, x, mail), o)
  {
  }

  lemma AroundAsk(s: Sys, o: Id, children: set<Id>)
    requires SameObjects(s) && o in s.objs && (forall c | c in children :: IsChild(s, c, o))
    ensures Around(s, Ask(s, children), o)
  {
  }

  lemma AroundTrans(s: Sys, t: Sys, u: Sys, o: Id)
    requires Around(s, t, o) && Around(t, u, o)
    ensures Around(s, u, o)
  {
    forall c | c in s.objs && c != o && !IsChild(s, c, o) ensures SameLinks(s, u, c) {
      assert SameLinks(s, t, c) && !IsChild(t, c, o) && SameLinks(t, u, c);
    }
  }

  lemma AroundBecomes(s: Sys, o: Id, x: State)
    requires SameObjects(s) && o in s.objs && x.owner == s.objs[o].owner
    ensures Around(s, Becomes(s, o, x), o)
  {
  }

  /** A child may change as long as it does not start or end its termination. */
  lemma ChildSame(points: nat, asked: bool, termsSent: nat, x: State, y: State, up: seq<Up>)
    requires ChildOk(points, asked, termsSent, x, up) && x.terminating == y.terminating && x.destroyed == y.destroyed
    ensures ChildOk(points, asked, termsSent, y, up)
  {
  }

  /** At its end a terminating child sends its ack. */
  lemma ChildEnds(points: nat, asked: bool, termsSent: nat, x: State, y: State, up: seq<Up>)
    requires ChildOk(points, asked, termsSent, x, up) && x.terminating && y.terminating && !x.destroyed && y.destroyed
    ensures ChildOk(points, asked, termsSent, y, up + [TermAck])
  {
  }

  lemma PostInv(s: Sys, o: Id, cmd: Seqd)
    requires Inv(s) && Possible(s, Post(o, cmd))
    ensures Inv(Step(s, Post(o, cmd)))
  {
    InvCenter(s, o);
    PostCenter(s, o, cmd);
    hide ObjInv, PairInv, Inv;
    Assemble(s, Sent(s, o, cmd), o);
  }

  lemma PostSelf(s: Sys, o: Id, cmd: Seqd)
    requires Center(s, o) && Possible(s, Post(o, cmd))
    ensures var t := Sent(s, o, cmd); SameObjects(t) && Steady(s, t, o)
    ensures var t, owner := Sent(s, o, cmd), s.objs[o].owner; owner.Some? ==> PairInv(t, owner.value, o)
  {
    hide Unacked, ObjOk, UpOk;
  }

  lemma PostCenter(s: Sys, o: Id, cmd: Seqd)
    requires Center(s, o) && Possible(s, Post(o, cmd))
    ensures var t := Sent(s, o, cmd); Around(s, t, o) && Steady(s, t, o) && Center(t, o)
  {
    var t := Sent(s, o, cmd);
    AroundPut(s, o, t.objs[o], t.mail[o]);
    SentOk(s.objs[o], s.mail[o], |Unacked(s, o)|, cmd);
    PostSelf(s, o, cmd);
    hide ObjOk, PairInv, Unacked, Steady;
    forall c ensures PairInv(t, o, c) && (c in Unacked(t, o) <==> c in Unacked(s, o)) {
      ChildUnmoved(s, t, o, c);
    }
    assert Unacked(t, o) == Unacked(s, o);
  }

  // ------------------------------------------------------------------ steps that neither start nor undo a termination

  /** The step leads from `s` over changes of mail and links, `u`, to a new state of the object. */
  ghost predicate Handles(s: Sys, u: Sys, o: Id, x: State) {
    && Center(s, o) && Around(s, u, o) && u.objs[o] == s.objs[o] && SameLinks(s, u, o) && !s.objs[o].destroyed
    && x.owner == s.objs[o].owner && x.terminating == s.objs[o].terminating && (x.destroyed ==> x.terminating)
  }

  lemma SelfBecomes(s: Sys, u: Sys, o: Id, x: State)
    requires Handles(s, u, o, x)
    ensures var t := Becomes(u, o, x);
      && Around(s, t, o) && Steady(s, t, o)
      && (x.owner == None ==> t.up[o] == [] && o !in t.terms)
      && (x.owner.Some? ==> x.owner.value in t.objs && x.owner.value != o && PairInv(t, x.owner.value, o))
  {
    var t := Becomes(u, o, x);
    AroundBecomes(u, o, x);
    AroundTrans(s, u, t, o);
    if x.owner.Some? {
      var q, y := x.owner.value, s.objs[o];
      if x.destroyed {
        ChildEnds(Points(s, q, o), o in s.terms, s.termsSent[o], y, x, s.up[o]);
      } else {
        ChildSame(Points(s, q, o), o in s.terms, s.termsSent[o], y, x, s.up[o]);
      }
    }
  }

  /** An object and its children are in order. */
  ghost predicate Kept(t: Sys, o: Id) {
    && SameObjects(t) && o in t.objs
    && ObjOk(t.objs[o], t.mail[o], |Unacked(t, o)|)
    && forall c :: PairInv(t, o, c)
  }

  lemma HandledCenter(s: Sys, u: Sys, o: Id, x: State)
    requires Handles(s, u, o, x) && o in u.up && o in u.mail && Kept(Becomes(u, o, x), o)
    ensures var t := Becomes(u, o, x); Around(s, t, o) && Steady(s, t, o) && Center(t, o)
  {
    SelfBecomes(s, u, o, x);
    assert Becomes(u, o, x).objs[o] == x;
    hide ObjOk, PairInv, Unacked, Steady, Becomes, Handles, Around;
  }

  lemma HandledInv(s: Sys, u: Sys, o: Id, x: State)
    requires Inv(s) && Handles(s, u, o, x) && o in u.up && o in u.mail && Kept(Becomes(u, o, x), o)
    ensures Inv(Becomes(u, o, x))
  {
    HandledCenter(s, u, o, x);
    hide Kept, Center, Steady, Inv, Around, Becomes, Handles;
    Assemble(s, Becomes(u, o, x), o);
  }

  /** How a child that is not affected by a step is seen after it. */
  lemma ChildUnmoved(s: Sys, t: Sys, o: Id, c: Id)
    requires Around(s, t, o) && PairInv(s, o, c) && Points(t, o, c) == Points(s, o, c)
    requires IsChild(s, c, o) ==> c != o && SameLinks(s, t, c)
    ensures PairInv(t, o, c) && (c in Unacked(t, o) <==> c in Unacked(s, o))
  {
  }

  /** Nothing has changed between an object and its children. */
  lemma NoChildMoved(s: Sys, u: Sys, o: Id, x: State)
    requires Handles(s, u, o, x) && u.terms == s.terms && u.up == s.up && u.termsSent == s.termsSent
    requires x.owned == s.objs[o].owned && (forall c :: u.mail[o][OwnCmd(c)] == s.mail[o][OwnCmd(c)])
    ensures var t := Becomes(u, o, x);
      SameObjects(s) && SameObjects(t) && o in t.objs && Unacked(t, o) == Unacked(s, o) && forall c :: PairInv(t, o, c)
  {
    SelfBecomes(s, u, o, x);
    var t := Becomes(u, o, x);
    forall c ensures Untouched(s, u, o, x, c) {
    }
    hide PairInv, Unacked, ObjOk, Steady, Becomes, Handles, Untouched;
    forall c ensures PairInv(t, o, c) && (c in Unacked(t, o) <==> c in Unacked(s, o)) {
      OtherChild(s, u, o, x, c);
    }
  }

  lemma HandlesAtOnce(s: Sys, o: Id, x: State)
    requires Center(s, o) && !s.objs[o].destroyed
    requires x.owner == s.objs[o].owner && x.terminating == s.objs[o].terminating && (x.destroyed ==> x.terminating)
    ensures Handles(s, s, o, x)
  {
  }

  lemma UnmovedInv(s: Sys, u: Sys, o: Id, x: State)
    requires Inv(s) && Handles(s, u, o, x) && o in u.mail && o in u.up
    requires u.terms == s.terms && u.up == s.up && u.termsSent == s.termsSent
    requires x.owned == s.objs[o].owned && (forall c :: u.mail[o][OwnCmd(c)] == s.mail[o][OwnCmd(c)])
    requires ObjOk(x, u.mail[o], |Unacked(s, o)|)
    ensures Inv(Becomes(u, o, x))
  {
    hide Inv, Center, ObjInv, PairInv, Unacked, ObjOk, Becomes, Handles, Moves, Kept, Around, Steady;
    NoChildMoved(s, u, o, x);
    KeptIf(u, o, x, |Unacked(s, o)|);
    HandledInv(s, u, o, x);
  }

  lemma PipeGoneInv(s: Sys, o: Id, p: Pipe)
    requires Inv(s) && Possible(s, PipeGone(o, p))
    ensures Safe(s, PipeGone(o, p)) && Inv(Step(s, PipeGone(o, p)))
  {
    hide Inv, Center, ObjInv, PairInv, Unacked, ObjOk, Becomes, Handles, Moves, Kept, Around, Steady;
    PipeGoneSafe(s, o, p);
    InvCenter(s, o);
    CenterObj(s, o);
    var x := PipeTerminatedOf(s.objs[o], p);
    PipeGoneOk(s.objs[o], s.mail[o], |Unacked(s, o)|, p);
    HandlesAtOnce(s, o, x);
    UnmovedInv(s, s, o, x);
  }

  /** A pipe is attached without a command. */
  lemma AttachInv(s: Sys, o: Id, p: Pipe)
    requires Inv(s) && Possible(s, Attach(o, p))
    ensures Inv(Becomes(s, o, AttachOf(s.objs[o], p)))
  {
    hide Inv, Center, ObjInv, PairInv, Unacked, ObjOk, Becomes, Handles, Moves, Kept, Around, Steady;
    InvCenter(s, o);
    CenterObj(s, o);
    var x := AttachOf(s.objs[o], p);
    AttachOk(s.objs[o], s.mail[o], |Unacked(s, o)|, p);
    HandlesAtOnce(s, o, x);
    UnmovedInv(s, s, o, x);
  }

  /** A command was taken from the mail. */
  lemma TakenHandles(s: Sys, o: Id, cmd: Seqd, x: State)
    requires Center(s, o) && !s.objs[o].destroyed
    requires x.owner == s.objs[o].owner && x.terminating == s.objs[o].terminating && (x.destroyed ==> x.terminating)
    ensures Handles(s, Put(s, o, s.objs[o], s.mail[o] - multiset{cmd}), o, x)
  {
  }

  lemma TakeBindInv(s: Sys, o: Id, p: Pipe)
    requires Inv(s) && o in s.objs && Bind(p) in s.mail[o]
    ensures Inv(Taken(s, o, Bind(p)))
  {
    hide Inv, Center, ObjInv, PairInv, Unacked, ObjOk, Becomes, Handles, Moves, Kept, Around, Steady;
    InvCenter(s, o);
    CenterObj(s, o);
    var y, m := s.objs[o], s.mail[o];
    var x := SeqnumOf(AttachOf(y, p));
    BindOk(y, m, |Unacked(s, o)|, p);
    TakenHandles(s, o, Bind(p), x);
    UnmovedInv(s, Put(s, o, y, m - multiset{Bind(p)}), o, x);
  }

  lemma TakePlainInv(s: Sys, o: Id)
    requires Inv(s) && o in s.objs && Plain in s.mail[o]
    ensures Inv(Taken(s, o, Plain))
  {
    hide Inv, Center, ObjInv, PairInv, Unacked, ObjOk, Becomes, Handles, Moves, Kept, Around, Steady;
    InvCenter(s, o);
    CenterObj(s, o);
    var y, m := s.objs[o], s.mail[o];
    SeqnumOk(y, m, |Unacked(s, o)|, Plain);
    TakenHandles(s, o, Plain, SeqnumOf(y));
    UnmovedInv(s, Put(s, o, y, m - multiset{Plain}), o, SeqnumOf(y));
  }

  // ------------------------------------------------------------------ one child is affected

  /** Whether a step leaves a child as it was. */
  ghost predicate Untouched(s: Sys, u: Sys, o: Id, x: State, d: Id)
    requires SameObjects(s) && SameObjects(u) && s.objs.Keys == u.objs.Keys && o in s.objs
  {
    && (d in s.objs ==> SameLinks(s, u, d))
    && (d in x.owned <==> d in s.objs[o].owned)
    && u.mail[o][OwnCmd(d)] == s.mail[o][OwnCmd(d)]
  }

  lemma OtherChild(s: Sys, u: Sys, o: Id, x: State, d: Id)
    requires Handles(s, u, o, x) && Untouched(s, u, o, x, d)
    ensures var t := Becomes(u, o, x);
      SameObjects(t) && PairInv(t, o, d) && (d in Unacked(t, o) <==> d in Unacked(s, o))
  {
    SelfBecomes(s, u, o, x);
    assert PairInv(s, o, d);
    ChildUnmoved(s, Becomes(u, o, x), o, d);
  }

  /** A child is at one point of its life. */
  lemma ChildAt(s: Sys, o: Id, c: Id)
    requires Center(s, o) && IsChild(s, c, o)
    ensures c != o
    ensures s.mail[o][OwnCmd(c)] + One(c in s.objs[o].owned) + One(c in s.terms) + One(s.objs[c].terminating) == 1
    ensures s.termsSent[c] == One(c in s.terms || s.objs[c].terminating) && UpOk(s.up[c], s.objs[c].destroyed)
    ensures c in Unacked(s, o) <==> Awaited(s, c)
    ensures s.objs[c].destroyed ==> s.objs[c].terminating
  {
    assert PairInv(s, o, c);
  }

  lemma OneMore<T>(a: set<T>, c: T)
    ensures c !in a ==> |a + {c}| == |a| + 1 && a - {c} == a
    ensures c in a ==> a + {c} == a && |a - {c}| == |a| - 1 && |a| > 0
  {
  }

  /** One child is affected, the others are not. */
  ghost predicate Moves(s: Sys, u: Sys, o: Id, x: State, c: Id, awaited: bool) {
    && Handles(s, u, o, x) && IsChild(s, c, o)
    && (forall d | d != c :: Untouched(s, u, o, x, d))
    && var t := Becomes(u, o, x);
       SameObjects(t) ==> c in t.objs && PairInv(t, o, c) && (c in Unacked(t, o) <==> awaited)
  }

  lemma OneChildMoved(s: Sys, u: Sys, o: Id, x: State, c: Id, awaited: bool)
    requires Moves(s, u, o, x, c, awaited)
    ensures Handles(s, u, o, x) && o in u.up && o in u.mail && SameObjects(s)
    ensures var t := Becomes(u, o, x);
      && SameObjects(t) && o in t.objs
      && (forall d :: PairInv(t, o, d))
      && Unacked(t, o) == if awaited then Unacked(s, o) + {c} else Unacked(s, o) - {c}
  {
    SelfBecomes(s, u, o, x);
    var t := Becomes(u, o, x);
    hide PairInv, Unacked, Steady, Handles, Untouched, Becomes;
    forall d | d != c ensures PairInv(t, o, d) && (d in Unacked(t, o) <==> d in Unacked(s, o)) {
      OtherChild(s, u, o, x, d);
    }
  }

  lemma KeptIf(u: Sys, o: Id, x: State, n: nat)
    requires o in u.up && o in u.mail && SameObjects(Becomes(u, o, x)) && o in Becomes(u, o, x).objs
    requires ObjOk(x, u.mail[o], n) && n == |Unacked(Becomes(u, o, x), o)|
    requires forall c :: PairInv(Becomes(u, o, x), o, c)
    ensures Kept(Becomes(u, o, x), o)
  {
  }

  lemma MovesInv(s: Sys, u: Sys, o: Id, x: State, c: Id, awaited: bool, n: nat)
    requires Inv(s) && Moves(s, u, o, x, c, awaited) && o in u.mail && o in u.up && ObjOk(x, u.mail[o], n)
    requires n == |Unacked(s, o)| - One(c in Unacked(s, o)) + One(awaited)
    ensures Inv(Becomes(u, o, x))
  {
    hide Inv, Center, ObjInv, PairInv, Unacked, ObjOk, Becomes, Handles, Moves, Kept, Around, Steady;
    OneChildMoved(s, u, o, x, c, awaited);
    OneMore(Unacked(s, o), c);
    KeptIf(u, o, x, n);
    HandledInv(s, u, o, x);
  }

  lemma BecomesChild(s: Sys, u: Sys, o: Id, x: State, c: Id)
    requires Handles(s, u, o, x) && IsChild(s, c, o) && c != o
    ensures var t := Becomes(u, o, x);
      && IsChild(t, c, o) && t.objs[c] == s.objs[c] && o in t.objs && t.objs[o] == x
      && SameObjects(t) && t.up[c] == u.up[c] && t.mail[o] == u.mail[o]
      && t.terms == u.terms && t.termsSent == u.termsSent
  {
    AroundBecomes(u, o, x);
  }

  /** What a child looks like to its owner after the step, from its links and its points. */
  lemma MovesIf(s: Sys, u: Sys, o: Id, x: State, c: Id, awaited: bool)
    requires Handles(s, u, o, x) && IsChild(s, c, o) && c != o
    requires forall d | d != c :: Untouched(s, u, o, x, d)
    requires ChildOk(u.mail[o][OwnCmd(c)] + One(c in x.owned), c in u.terms, u.termsSent[c], s.objs[c], u.up[c])
    requires awaited <==> c in u.terms || (s.objs[c].terminating && (s.objs[c].destroyed ==> u.up[c] != []))
    ensures Moves(s, u, o, x, c, awaited)
  {
    BecomesChild(s, u, o, x, c);
    hide ChildOk, Handles, Becomes, Untouched;
    assert c in Unacked(Becomes(u, o, x), o) <==> awaited;
  }

  lemma AskHandles(s: Sys, v: Sys, o: Id, x: State, children: set<Id>)
    requires Handles(s, v, o, x) && (forall c | c in children :: IsChild(s, c, o) && c != o)
    ensures Handles(s, Ask(v, children), o, x)
  {
  }

  lemma UpHandles(s: Sys, o: Id, x: State, c: Id, up: seq<Up>)
    requires Handles(s, s, o, x) && IsChild(s, c, o) && c != o
    ensures Handles(s, WithUp(s, c, up), o, x)
  {
  }

  lemma UpTail(up: seq<Up>, destroyed: bool)
    requires UpOk(up, destroyed) && up != []
    ensures UpOk(up[1..], destroyed)
    ensures up[0] == TermReq && destroyed ==> up[1..] != []
    ensures up[0] == TermAck ==> up[1..] == [] && destroyed
  {
  }

  lemma LateChildMoves(s: Sys, o: Id, c: Id)
    requires Center(s, o) && !s.objs[o].destroyed && OwnCmd(c) in s.mail[o] && s.objs[o].terminating
    ensures var v := Put(s, o, s.objs[o], s.mail[o] - multiset{OwnCmd(c)});
      Moves(s, Ask(v, {c}), o, SeqnumOf(OwnOf(s.objs[o], c)), c, true)
    ensures IsChild(s, c, o) && c !in Unacked(s, o)
  {
    assert PairInv(s, o, c);
    ChildAt(s, o, c);
    var x, v := SeqnumOf(OwnOf(s.objs[o], c)), Put(s, o, s.objs[o], s.mail[o] - multiset{OwnCmd(c)});
    TakenHandles(s, o, OwnCmd(c), x);
    AskHandles(s, v, o, x, {c});
    hide Handles, Becomes, PairInv, Unacked, Center, ObjInv, UpOk, Moves;
    MovesIf(s, Ask(v, {c}), o, x, c, true);
  }

  lemma OwnedChildMoves(s: Sys, o: Id, c: Id)
    requires Center(s, o) && !s.objs[o].destroyed && OwnCmd(c) in s.mail[o] && !s.objs[o].terminating
    ensures var v := Put(s, o, s.objs[o], s.mail[o] - multiset{OwnCmd(c)});
      Moves(s, v, o, SeqnumOf(OwnOf(s.objs[o], c)), c, false)
    ensures IsChild(s, c, o) && c !in Unacked(s, o)
  {
    assert PairInv(s, o, c);
    ChildAt(s, o, c);
    var x, v := SeqnumOf(OwnOf(s.objs[o], c)), Put(s, o, s.objs[o], s.mail[o] - multiset{OwnCmd(c)});
    TakenHandles(s, o, OwnCmd(c), x);
    hide Handles, Becomes, PairInv, Unacked, Center, ObjInv, UpOk, Moves;
    MovesIf(s, v, o, x, c, false);
  }

  /** An `own` command reaches a terminating object: the child is asked to terminate. */
  lemma TakeOwnLateInv(s: Sys, o: Id, c: Id)
    requires Inv(s) && o in s.objs && OwnCmd(c) in s.mail[o] && s.objs[o].terminating
    ensures Inv(Taken(s, o, OwnCmd(c)))
  {
    hide Inv, Center, ObjInv, PairInv, Unacked, ObjOk, Becomes, Handles, Moves, Kept, Around, Steady;
    InvCenter(s, o);
    CenterObj(s, o);
    var y, n := s.objs[o], |Unacked(s, o)|;
    OwnOk(y, s.mail[o], n, c);
    LateChildMoves(s, o, c);
    var v := Put(s, o, y, s.mail[o] - multiset{OwnCmd(c)});
    MovesInv(s, Ask(v, {c}), o, SeqnumOf(OwnOf(y, c)), c, true, n + 1);
  }

  /** An `own` command reaches another object: the child is owned. */
  lemma TakeOwnInv(s: Sys, o: Id, c: Id)
    requires Inv(s) && o in s.objs && OwnCmd(c) in s.mail[o] && !s.objs[o].terminating
    ensures Inv(Taken(s, o, OwnCmd(c)))
  {
    hide Inv, Center, ObjInv, PairInv, Unacked, ObjOk, Becomes, Handles, Moves, Kept, Around, Steady;
    InvCenter(s, o);
    CenterObj(s, o);
    var y, n := s.objs[o], |Unacked(s, o)|;
    OwnOk(y, s.mail[o], n, c);
    OwnedChildMoves(s, o, c);
    MovesInv(s, Put(s, o, y, s.mail[o] - multiset{OwnCmd(c)}), o, SeqnumOf(OwnOf(y, c)), c, false, n);
  }

  lemma AskedChildMoves(s: Sys, o: Id, c: Id)
    requires Center(s, o) && !s.objs[o].terminating && c in s.objs[o].owned
    ensures Moves(s, Ask(s, {c}), o, TermReqOf(s.objs[o], c), c, true)
    ensures IsChild(s, c, o) && c !in Unacked(s, o)
  {
    assert PairInv(s, o, c);
    ChildAt(s, o, c);
    var x := TermReqOf(s.objs[o], c);
    HandlesAtOnce(s, o, x);
    AskHandles(s, s, o, x, {c});
    hide Handles, Becomes, PairInv, Unacked, Center, ObjInv, UpOk;
    MovesIf(s, Ask(s, {c}), o, x, c, true);
  }

  lemma AskedInv(s: Sys, o: Id, c: Id)
    requires Inv(s) && Alive(s, o) && !s.objs[o].terminating && c in s.objs[o].owned
    ensures Inv(AskOne(s, o, c))
  {
    hide Inv, Center, ObjInv, PairInv, Unacked, ObjOk, Becomes, Handles, Moves, Kept, Around, Steady;
    InvCenter(s, o);
    CenterObj(s, o);
    var y, n := s.objs[o], |Unacked(s, o)|;
    TermReqOk(y, s.mail[o], n, c);
    AskedChildMoves(s, o, c);
    MovesInv(s, Ask(s, {c}), o, TermReqOf(y, c), c, true, n + 1);
  }

  lemma AskNothing(s: Sys, o: Id, c: Id)
    requires SameObjects(s) && Alive(s, o) && (s.objs[o].terminating || c !in s.objs[o].owned)
    ensures AskOne(s, o, c) == s
  {
  }

  /** A child is asked to terminate, on its own request or not. */
  lemma AskOneInv(s: Sys, o: Id, c: Id)
    requires Inv(s) && Alive(s, o)
    ensures Inv(AskOne(s, o, c))
  {
    if s.objs[o].terminating || c !in s.objs[o].owned {
      AskNothing(s, o, c);
    } else {
      AskedInv(s, o, c);
    }
  }

  /** The queue of a child changes, and the state of its owner with it. */
  lemma UpChildMoves(s: Sys, o: Id, c: Id, up: seq<Up>, x: State)
    requires Handles(s, s, o, x) && IsChild(s, c, o) && UpOk(up, s.objs[c].destroyed) && x.owned == s.objs[o].owned
    ensures Moves(s, WithUp(s, c, up), o, x, c,
                  c in s.terms || (s.objs[c].terminating && (s.objs[c].destroyed ==> up != [])))
    ensures c in Unacked(s, o) <==> Awaited(s, c)
  {
    ChildAt(s, o, c);
    UpHandles(s, o, x, c, up);
    hide Handles, Becomes, PairInv, Unacked, Center, ObjInv, UpOk;
    MovesIf(s, WithUp(s, c, up), o, x, c,
            c in s.terms || (s.objs[c].terminating && (s.objs[c].destroyed ==> up != [])));
  }

  lemma BecomesNothing(u: Sys, o: Id)
    requires o in u.objs && o in u.mail && o in u.up && !u.objs[o].destroyed
    ensures Becomes(u, o, u.objs[o]) == u
  {
  }

  /** The queue of a child may change as long as its owner waits for it as before. */
  lemma SameUpInv(s: Sys, o: Id, c: Id, up: seq<Up>)
    requires Inv(s) && Alive(s, o) && IsChild(s, c, o) && UpOk(up, s.objs[c].destroyed)
    requires s.objs[c].destroyed ==> (up == [] <==> s.up[c] == [])
    ensures Inv(WithUp(s, c, up))
  {
    hide Inv, Center, ObjInv, PairInv, Unacked, ObjOk, Becomes, Handles, Moves, Kept, Around, Steady;
    InvCenter(s, o);
    CenterObj(s, o);
    var y, u := s.objs[o], WithUp(s, c, up);
    HandlesAtOnce(s, o, y);
    UpChildMoves(s, o, c, up, y);
    BecomesNothing(u, o);
    MovesInv(s, u, o, y, c, Awaited(s, c), |Unacked(s, o)|);
  }

  /** The owner takes a request to terminate from the queue of a child. */
  lemma TakeReqInv(s: Sys, o: Id, c: Id)
    requires Inv(s) && Alive(s, o) && IsChild(s, c, o) && s.up[c] != [] && s.up[c][0] == TermReq
    ensures Inv(WithUp(s, c, s.up[c][1..]))
  {
    InvCenter(s, o);
    ChildAt(s, o, c);
    UpTail(s.up[c], s.objs[c].destroyed);
    SameUpInv(s, o, c, s.up[c][1..]);
  }

  lemma AckFacts(s: Sys, o: Id, c: Id)
    requires Center(s, o) && IsChild(s, c, o) && s.up[c] != [] && s.up[c][0] == TermAck
    ensures s.up[c][1..] == [] && UpOk(s.up[c][1..], s.objs[c].destroyed)
    ensures s.objs[c].destroyed && c !in s.terms && c in Unacked(s, o)
  {
    ChildAt(s, o, c);
    UpTail(s.up[c], s.objs[c].destroyed);
  }

  /** The owner takes the ack of a child. */
  lemma TakeAckInv(s: Sys, o: Id, c: Id)
    requires Inv(s) && Alive(s, o) && IsChild(s, c, o) && s.up[c] != [] && s.up[c][0] == TermAck
    ensures s.objs[o].acks > 0 && Inv(Becomes(WithUp(s, c, s.up[c][1..]), o, TermAckOf(s.objs[o])))
  {
    hide Inv, Center, ObjInv, PairInv, Unacked, ObjOk, Becomes, Handles, Moves, Kept, Around, Steady, UpOk;
    InvCenter(s, o);
    CenterObj(s, o);
    AckFacts(s, o, c);
    var y, n := s.objs[o], |Unacked(s, o)|;
    OneMore(Unacked(s, o), c);
    TermAckOk(y, s.mail[o], n);
    var x := TermAckOf(y);
    HandlesAtOnce(s, o, x);
    UpChildMoves(s, o, c, s.up[c][1..], x);
    MovesInv(s, WithUp(s, c, s.up[c][1..]), o, x, c, false, n - 1);
  }

  lemma RequestFacts(s: Sys, c: Id)
    requires Inv(s) && Alive(s, c) && s.objs[c].owner.Some? && !s.objs[c].terminating
    ensures Alive(s, s.objs[c].owner.value) && UpOk(s.up[c] + [TermReq], s.objs[c].destroyed)
  {
    var o := s.objs[c].owner.value;
    assert ObjInv(s, c) && IsChild(s, c, o) && PairInv(s, o, c);
    if s.objs[o].destroyed {
      DestroyedIsDone(s, o);
    }
  }

  /** An object asks its owner to be terminated. */
  lemma RequestInv(s: Sys, c: Id)
    requires Inv(s) && Alive(s, c) && s.objs[c].owner.Some? && !s.objs[c].terminating
    ensures Inv(WithUp(s, c, s.up[c] + [TermReq]))
  {
    RequestFacts(s, c);
    hide Inv, UpOk;
    SameUpInv(s, s.objs[c].owner.value, c, s.up[c] + [TermReq]);
  }

  // ------------------------------------------------------------------ the start of a termination

  /** The object is ready to terminate: as a root, or with a `term` that it takes now. */
  ghost predicate Ready(s: Sys, o: Id) {
    Center(s, o) && !s.objs[o].terminating && (s.objs[o].owner == None || o in s.terms)
  }

  function TermTaken(s: Sys, o: Id): Sys {
    s.(terms := s.terms - {o})
  }

  lemma TermAround(s: Sys, o: Id)
    requires Ready(s, o)
    ensures Around(s, Ask(TermTaken(s, o), s.objs[o].owned), o) && Around(s, DoTerm(TermTaken(s, o), o), o)
  {
    var v, y := TermTaken(s, o), s.objs[o];
    var u := Ask(v, y.owned);
    assert Around(s, v, o);
    forall c | c in y.owned ensures IsChild(v, c, o) {
      assert PairInv(s, o, c);
    }
    AroundAsk(v, o, y.owned);
    AroundTrans(s, v, u, o);
    AroundBecomes(u, o, TermOf(y));
    AroundTrans(s, u, DoTerm(v, o), o);
  }

  lemma TermSelf(s: Sys, o: Id)
    requires Ready(s, o)
    ensures var t := DoTerm(TermTaken(s, o), o);
      && Around(s, t, o) && Steady(s, t, o)
      && (s.objs[o].owner == None ==> t.up[o] == [] && o !in t.terms)
      && (s.objs[o].owner.Some? ==> PairInv(t, s.objs[o].owner.value, o))
  {
    TermAround(s, o);
    var t := DoTerm(TermTaken(s, o), o);
    assert o !in s.objs[o].owned by {
      assert PairInv(s, o, o);
    }
    assert o !in t.terms && t.termsSent[o] == s.termsSent[o] && t.objs[o].terminating;
    if s.objs[o].owner.Some? {
      var q := s.objs[o].owner.value;
      assert PairInv(s, q, o) && Points(t, q, o) == Points(s, q, o);
      assert UpOk(t.up[o], t.objs[o].destroyed) && (t.objs[o].destroyed ==> t.up[o] != []);
    }
  }

  lemma TermOfChild(s: Sys, o: Id, c: Id)
    requires Ready(s, o)
    ensures var t := DoTerm(TermTaken(s, o), o);
      && Around(s, t, o) && PairInv(t, o, c)
      && (c in Unacked(t, o) <==> c in Unacked(s, o) || c in s.objs[o].owned)
      && (c in s.objs[o].owned ==> c !in Unacked(s, o))
  {
    TermAround(s, o);
    assert PairInv(s, o, c);
    if IsChild(s, c, o) {
      ChildAt(s, o, c);
    }
  }

  lemma DisjointSum<T>(a: set<T>, b: set<T>)
    requires a !! b
    ensures |a + b| == |a| + |b|
  {
  }

  lemma TermChildren(s: Sys, o: Id)
    requires Ready(s, o)
    ensures var t := DoTerm(TermTaken(s, o), o);
      && Around(s, t, o) && (forall c :: PairInv(t, o, c))
      && |Unacked(t, o)| == |Unacked(s, o)| + |s.objs[o].owned|
  {
    var t, y := DoTerm(TermTaken(s, o), o), s.objs[o];
    TermAround(s, o);
    hide PairInv, Unacked, DoTerm, Ready;
    forall c
      ensures PairInv(t, o, c)
      ensures c in Unacked(t, o) <==> c in Unacked(s, o) || c in y.owned
      ensures c in y.owned ==> c !in Unacked(s, o)
    {
      TermOfChild(s, o, c);
    }
    assert Unacked(t, o) == Unacked(s, o) + y.owned;
    DisjointSum(Unacked(s, o), y.owned);
  }

  lemma TermCenter(s: Sys, o: Id)
    requires Ready(s, o)
    ensures var t := DoTerm(TermTaken(s, o), o); Around(s, t, o) && Steady(s, t, o) && Center(t, o)
  {
    TermSelf(s, o);
    TermChildren(s, o);
    TermOk(s.objs[o], s.mail[o], |Unacked(s, o)|);
    assert DoTerm(TermTaken(s, o), o).objs[o] == TermOf(s.objs[o]);
    assert DoTerm(TermTaken(s, o), o).mail[o] == s.mail[o];
    hide ObjOk, PairInv, Unacked, Steady, DoTerm, TermOf;
  }

  lemma TermInv(s: Sys, o: Id)
    requires Inv(s) && Ready(s, o)
    ensures Inv(DoTerm(TermTaken(s, o), o))
  {
    TermCenter(s, o);
    hide Inv, Center, Steady, DoTerm, Around;
    Assemble(s, DoTerm(TermTaken(s, o), o), o);
  }

  // ------------------------------------------------------------------ launches

  function WithNew(s: Sys, o: Id, c: Id): Sys {
    s.(objs := s.objs[c := Fresh(Some(o)).(sent := 1)], mail := s.mail[c := multiset{Plain}],
       up := s.up[c := []], termsSent := s.termsSent[c := 0])
  }

  function Launched(s: Sys, o: Id, c: Id): Sys
    requires o in s.objs && o in s.mail && o != c
  {
    Sent(WithNew(s, o, c), o, OwnCmd(c))
  }

  ghost predicate NewName(s: Sys, o: Id, c: Id) {
    SameObjects(s) && o in s.objs && c !in s.objs && (forall d | d in s.objs :: s.objs[d].owner != Some(c))
  }

  lemma NewSame(s: Sys, o: Id, c: Id)
    requires NewName(s, o, c)
    ensures SameObjects(Launched(s, o, c)) && Launched(s, o, c).objs.Keys == s.objs.Keys + {c}
  {
  }

  lemma LaunchLinks(s: Sys, o: Id, c: Id, d: Id)
    requires NewName(s, o, c) && d in s.objs
    ensures var t := Launched(s, o, c);
      && SameObjects(t) && SameLinks(s, t, d) && t.objs[d].owner == s.objs[d].owner
      && t.objs[d].terminating == s.objs[d].terminating && t.objs[d].destroyed == s.objs[d].destroyed
  {
    NewSame(s, o, c);
  }

  lemma NewUnacked(s: Sys, o: Id, c: Id, x: Id)
    requires NewName(s, o, c) && (x in s.objs || x == c)
    ensures SameObjects(Launched(s, o, c))
    ensures Unacked(Launched(s, o, c), x) == if x in s.objs then Unacked(s, x) else {}
  {
    NewSame(s, o, c);
    var t := Launched(s, o, c);
    assert c !in t.terms && !t.objs[c].terminating && t.objs[c].owner == Some(o);
    hide Launched, SameObjects;
    forall d ensures d in Unacked(t, x) <==> x in s.objs && d in Unacked(s, x) {
      if d in s.objs {
        LaunchLinks(s, o, c, d);
      }
    }
  }

  lemma LaunchPoints(s: Sys, o: Id, c: Id, x: Id, d: Id)
    requires NewName(s, o, c) && x in s.objs && d != c
    ensures SameObjects(Launched(s, o, c)) && Points(Launched(s, o, c), x, d) == Points(s, x, d)
  {
    NewSame(s, o, c);
  }

  lemma LaunchPair(s: Sys, o: Id, c: Id, x: Id, d: Id)
    requires NewName(s, o, c) && x in s.objs && PairInv(s, x, d) && d != c
    ensures SameObjects(Launched(s, o, c)) && PairInv(Launched(s, o, c), x, d)
  {
    NewSame(s, o, c);
    LaunchPoints(s, o, c, x, d);
    if d in s.objs {
      LaunchLinks(s, o, c, d);
    }
    var t := Launched(s, o, c);
    hide Launched, NewName, Points, SameObjects;
    if IsChild(s, d, x) {
      ChildSame(Points(s, x, d), d in s.terms, s.termsSent[d], s.objs[d], t.objs[d], s.up[d]);
    }
  }

  lemma LaunchNewPair(s: Sys, o: Id, c: Id, x: Id)
    requires NewName(s, o, c) && x in s.objs && PairInv(s, x, c)
    ensures SameObjects(Launched(s, o, c)) && PairInv(Launched(s, o, c), x, c)
  {
    NewSame(s, o, c);
    assert Points(s, x, c) == 0;
  }

  lemma LaunchOwnPair(s: Sys, o: Id, c: Id, d: Id)
    requires NewName(s, o, c)
    ensures SameObjects(Launched(s, o, c)) && PairInv(Launched(s, o, c), c, d)
  {
  }

  lemma LaunchObj(s: Sys, o: Id, c: Id, x: Id)
    requires NewName(s, o, c) && x in s.objs && ObjInv(s, x) && !s.objs[o].destroyed
    ensures SameObjects(Launched(s, o, c)) && ObjInv(Launched(s, o, c), x)
  {
    hide ObjOk, Unacked;
    NewSame(s, o, c);
    NewUnacked(s, o, c, x);
    if x == o {
      SentOk(s.objs[o], s.mail[o], |Unacked(s, o)|, OwnCmd(c));
    }
  }

  lemma LaunchOwnObj(s: Sys, o: Id, c: Id)
    requires NewName(s, o, c)
    ensures SameObjects(Launched(s, o, c)) && ObjInv(Launched(s, o, c), c)
  {
  }

  lemma NewNameInv(s: Sys, o: Id, c: Id)
    requires Inv(s) && o in s.objs && c !in s.objs
    ensures NewName(s, o, c)
  {
  }

  lemma LaunchInv(s: Sys, o: Id, c: Id)
    requires Inv(s) && Possible(s, Launch(o, c))
    ensures Inv(Launched(s, o, c))
  {
    NewNameInv(s, o, c);
    NewSame(s, o, c);
    var t := Launched(s, o, c);
    hide ObjInv, PairInv, Launched, NewName, SameObjects;
    forall x | x in t.objs ensures ObjInv(t, x) {
      if x == c {
        LaunchOwnObj(s, o, c);
      } else {
        LaunchObj(s, o, c, x);
      }
    }
    forall x, d | x in t.objs ensures PairInv(t, x, d) {
      if x == c {
        LaunchOwnPair(s, o, c, d);
      } else {
        assert PairInv(s, x, d);
        if d == c {
          LaunchNewPair(s, o, c, x);
        } else {
          LaunchPair(s, o, c, x, d);
        }
      }
    }
  }

  // ------------------------------------------------------------------ runs

  lemma TakeUpInv(s: Sys, c: Id)
    requires Inv(s) && Possible(s, TakeUp(c))
    ensures Safe(s, TakeUp(c)) && Inv(Step(s, TakeUp(c)))
  {
    AlwaysSafe(s, TakeUp(c));
    var o := s.objs[c].owner.value;
    if s.up[c][0] == TermReq {
      TakeReqInv(s, o, c);
      AskOneInv(WithUp(s, c, s.up[c][1..]), o, c);
    } else {
      TakeAckInv(s, o, c);
    }
  }

  lemma TakeInv(s: Sys, o: Id, cmd: Seqd)
    requires Inv(s) && Possible(s, Take(o, cmd))
    ensures Inv(Taken(s, o, cmd))
  {
    match cmd
    case OwnCmd(c) =>
      if s.objs[o].terminating {
        TakeOwnLateInv(s, o, c);
      } else {
        TakeOwnInv(s, o, c);
      }
    case Bind(p) => TakeBindInv(s, o, p);
    case Plain => TakePlainInv(s, o);
  }

  lemma TerminateInv(s: Sys, o: Id)
    requires Inv(s) && Possible(s, Terminate(o))
    ensures Inv(Step(s, Terminate(o)))
  {
    if !s.objs[o].terminating {
      if s.objs[o].owner == None {
        RootTermInv(s, o);
      } else {
        RequestInv(s, o);
      }
    }
  }

  lemma RootTermInv(s: Sys, o: Id)
    requires Inv(s) && Alive(s, o) && !s.objs[o].terminating && s.objs[o].owner == None
    ensures Inv(DoTerm(s, o))
  {
    InvCenter(s, o);
    hide Inv, Center, DoTerm;
    TermInv(s, o);
    RootNotAsked(s, o);
  }

  lemma RootNotAsked(s: Sys, o: Id)
    requires Center(s, o) && s.objs[o].owner == None
    ensures TermTaken(s, o) == s
  {
  }

  lemma StepInv(s: Sys, e: Event)
    requires Inv(s) && Possible(s, e)
    ensures Safe(s, e) && Inv(Step(s, e))
  {
    AlwaysSafe(s, e);
    hide Inv;
    match e
    case Launch(o, c) => LaunchInv(s, o, c);
    case Post(o, cmd) => PostInv(s, o, cmd);
    case Take(o, cmd) => TakeInv(s, o, cmd);
    case Attach(o, p) => AttachInv(s, o, p);
    case Terminate(o) => TerminateInv(s, o);
    case TermChild(o, c) => AskOneInv(s, o, c);
    case TakeUp(c) => TakeUpInv(s, c);
    case TakeTerm(c) => InvCenter(s, c); ReadyTaken(s, c); TermInv(s, c);
    case PipeGone(o, p) => PipeGoneInv(s, o, p);
  }

  lemma ReadyTaken(s: Sys, c: Id)
    requires Center(s, c) && Possible(s, TakeTerm(c)) && Safe(s, TakeTerm(c))
    ensures Ready(s, c)
  {
  }

  /** Root objects without commands, as they are created. */
  ghost predicate Initial(s: Sys) {
    && SameObjects(s) && s.terms == {}
    && forall o | o in s.objs :: s.objs[o] == Fresh(None) && s.mail[o] == multiset{} && s.up[o] == []
  }

  lemma InitialInv(s: Sys)
    requires Initial(s)
    ensures Inv(s)
  {
  }

  ghost predicate Reaches(s: Sys, events: seq<Event>, t: Sys)
    decreases |events|
  {
    if events == [] then s == t else
      SameObjects(s) && Possible(s, events[0]) && Safe(s, events[0]) && Reaches(Step(s, events[0]), events[1..], t)
  }

  lemma {:induction false} RunInv(s: Sys, events: seq<Event>, t: Sys)
    requires Inv(s) && Reaches(s, events, t)
    ensures Inv(t)
    decreases |events|
  {
    if events != [] {
      StepInv(s, events[0]);
      RunInv(Step(s, events[0]), events[1..], t);
    }
  }

  /** In every run: whatever can happen next finds its object alive, with no assertion failing. */
  lemma ShutdownSafe(s: Sys, events: seq<Event>, t: Sys, e: Event)
    requires Initial(s) && Reaches(s, events, t) && SameObjects(t) && Possible(t, e)
    ensures Safe(t, e)
  {
    InitialInv(s);
    RunInv(s, events, t);
    AlwaysSafe(t, e);
  }

  /** An object with an owner that is not terminating yet sends its owner a request. */
  lemma RequestSent(s: Sys, c: Id)
    requires SameObjects(s) && Alive(s, c) && !s.objs[c].terminating && s.objs[c].owner.Some?
    ensures Step(s, Terminate(c)) == WithUp(s, c, s.up[c] + [TermReq])
  {
  }

  /** The owner that takes the request sends `term` to a child it owns, unless it does so to all anyway. */
  lemma RequestHonoured(s: Sys, c: Id, o: Id)
    requires SameObjects(s) && IsChild(s, c, o) && Alive(s, o) && s.up[c] != [] && s.up[c][0] == TermReq
    requires !s.objs[o].terminating && c in s.objs[o].owned
    ensures var t := Step(s, TakeUp(c)); c in t.terms && o in t.objs && c !in t.objs[o].owned
  {
  }

  /** In every run: a destroyed object leaves nothing behind, and no child is asked twice to terminate. */
  lemma ShutdownClean(s: Sys, events: seq<Event>, t: Sys, o: Id)
    requires Initial(s) && Reaches(s, events, t) && o in t.objs
    ensures SameObjects(t)
    ensures t.objs[o].owner.Some? ==> t.termsSent[o] <= 1
    ensures t.objs[o].terminating ==> t.objs[o].acks == |Unacked(t, o)| + |t.objs[o].pipes|
    ensures t.objs[o].destroyed ==>
      && t.mail[o] == multiset{} && t.objs[o].owned == {} && t.objs[o].pipes == {}
      && forall c | IsChild(t, c, o) :: t.objs[c].destroyed && t.up[c] == []
  {
    InitialInv(s);
    RunInv(s, events, t);
    assert ObjInv(t, o);
    if t.objs[o].owner.Some? {
      assert PairInv(t, t.objs[o].owner.value, o);
    }
    if t.objs[o].destroyed {
      DestroyedIsDone(t, o);
    }
  }

  // ------------------------------------------------------------------ the end of a shutdown

  /** Objects with their distances from their roots. */
  ghost predicate Ranked(s: Sys, depth: map<Id, nat>) {
    && depth.Keys == s.objs.Keys
    && forall o | o in s.objs && s.objs[o].owner.Some? ::
         s.objs[o].owner.value in depth && depth[s.objs[o].owner.value] < depth[o]
  }

  ghost predicate SameOwners(s: Sys, t: Sys) {
    t.objs.Keys == s.objs.Keys && forall o | o in s.objs :: t.objs[o].owner == s.objs[o].owner
  }

  lemma BecomesOwners(s: Sys, u: Sys, o: Id, x: State)
    requires o in u.up && o in u.mail && SameOwners(s, u) && o in s.objs && x.owner == s.objs[o].owner
    ensures SameOwners(s, Becomes(u, o, x))
  {
  }

  /** Only a launch brings a new object, and owners never change. */
  lemma TakenOwners(s: Sys, o: Id, cmd: Seqd)
    requires SameObjects(s) && o in s.objs
    ensures SameOwners(s, Taken(s, o, cmd))
  {
    var y := s.objs[o];
    var v := Put(s, o, y, s.mail[o] - multiset{cmd});
    assert SameOwners(s, v);
    hide SameOwners;
    match cmd
    case OwnCmd(c) =>
      assert SameOwners(s, Ask(v, {c})) by { AskOwners(s, v, {c}); }
      BecomesOwners(s, if y.terminating then Ask(v, {c}) else v, o, SeqnumOf(OwnOf(y, c)));
    case Bind(p) => BecomesOwners(s, v, o, SeqnumOf(AttachOf(y, p)));
    case Plain => BecomesOwners(s, v, o, SeqnumOf(y));
  }

  lemma AskOwners(s: Sys, v: Sys, children: set<Id>)
    requires SameOwners(s, v)
    ensures SameOwners(s, Ask(v, children))
  {
  }

  lemma UpOwners(s: Sys, c: Id, up: seq<Up>)
    ensures SameOwners(s, s) && SameOwners(s, WithUp(s, c, up))
  {
  }

  lemma AskOneOwners(s: Sys, v: Sys, o: Id, c: Id)
    requires SameOwners(s, v) && o in v.objs && o in v.up && o in v.mail && o in s.objs
    ensures SameOwners(s, AskOne(v, o, c))
  {
    var y := v.objs[o];
    assert y.owner == s.objs[o].owner;
    AskOwners(s, v, {c});
    hide SameOwners;
    BecomesOwners(s, if !y.terminating && c in y.owned then Ask(v, {c}) else v, o, TermReqOf(y, c));
  }

  lemma DoTermOwners(s: Sys, v: Sys, o: Id)
    requires SameOwners(s, v) && o in v.objs && o in v.up && o in v.mail && o in s.objs
    ensures SameOwners(s, DoTerm(v, o))
  {
    var y := v.objs[o];
    assert y.owner == s.objs[o].owner;
    AskOwners(s, v, y.owned);
    hide SameOwners;
    BecomesOwners(s, Ask(v, y.owned), o, TermOf(y));
  }

  lemma StepOwners(s: Sys, e: Event)
    requires SameObjects(s) && Possible(s, e) && Safe(s, e) && !e.Launch?
    ensures SameOwners(s, Step(s, e))
  {
    UpOwners(s, 0, []);
    match e
    case Post(o, cmd) =>
    case Take(o, cmd) => TakenOwners(s, o, cmd);
    case Attach(o, p) => BecomesOwners(s, s, o, AttachOf(s.objs[o], p));
    case Terminate(o) =>
      DoTermOwners(s, s, o);
      UpOwners(s, o, s.up[o] + [TermReq]);
    case TermChild(o, c) => AskOneOwners(s, s, o, c);
    case TakeUp(c) =>
      var o, v := s.objs[c].owner.value, WithUp(s, c, s.up[c][1..]);
      UpOwners(s, c, s.up[c][1..]);
      if s.up[c][0] == TermReq {
        AskOneOwners(s, v, o, c);
      } else {
        BecomesOwners(s, v, o, TermAckOf(s.objs[o]));
      }
    case TakeTerm(c) => DoTermOwners(s, TermTaken(s, c), c);
    case PipeGone(o, p) => BecomesOwners(s, s, o, PipeTerminatedOf(s.objs[o], p));
  }

  lemma LaunchOwners(s: Sys, o: Id, c: Id)
    requires SameObjects(s) && o in s.objs && c !in s.objs
    ensures var t := Launched(s, o, c);
      && t.objs.Keys == s.objs.Keys + {c} && t.objs[c].owner == Some(o)
      && forall x | x in s.objs :: t.objs[x].owner == s.objs[x].owner
  {
  }

  lemma StepRanked(s: Sys, e: Event, depth: map<Id, nat>) returns (depth': map<Id, nat>)
    requires SameObjects(s) && Possible(s, e) && Safe(s, e) && Ranked(s, depth)
    ensures Ranked(Step(s, e), depth')
  {
    if e.Launch? {
      LaunchOwners(s, e.obj, e.child);
      hide Launched;
      depth' := depth[e.child := depth[e.obj] + 1];
    } else {
      StepOwners(s, e);
      hide Step;
      depth' := depth;
    }
  }

  lemma {:induction false} RunRanked(s: Sys, events: seq<Event>, t: Sys, depth: map<Id, nat>)
    returns (depth': map<Id, nat>)
    requires Ranked(s, depth) && Reaches(s, events, t)
    ensures Ranked(t, depth')
    decreases |events|
  {
    if events == [] {
      depth' := depth;
    } else {
      var next := StepRanked(s, events[0], depth);
      depth' := RunRanked(Step(s, events[0]), events[1..], t, next);
    }
  }

  lemma InitialRanked(s: Sys) returns (depth: map<Id, nat>)
    requires Initial(s)
    ensures Ranked(s, depth)
  {
    depth := map o | o in s.objs :: 0;
  }

  /** Nothing is on its way anywhere, and every pipe has reported its end. */
  ghost predicate Quiet(s: Sys)
    requires SameObjects(s)
  {
    s.terms == {} && forall o | o in s.objs :: s.mail[o] == multiset{} && s.up[o] == [] && s.objs[o].pipes == {}
  }

  ghost function Deeper(depth: map<Id, nat>, o: Id): set<Id>
    requires o in depth
  {
    set x | x in depth && depth[x] > depth[o]
  }

  /** In the quiet, an object that is not gone waits for a child that is not gone either. */
  lemma WaitsForChild(s: Sys, o: Id) returns (c: Id)
    requires Inv(s) && Quiet(s) && o in s.objs && s.objs[o].terminating && !s.objs[o].destroyed
    ensures IsChild(s, c, o) && s.objs[c].terminating && !s.objs[c].destroyed
  {
    assert ObjInv(s, o);
    assert Unacked(s, o) != {};
    c :| c in Unacked(s, o);
  }

  lemma {:induction false} QuietEnds(s: Sys, depth: map<Id, nat>, o: Id)
    requires Inv(s) && Quiet(s) && Ranked(s, depth) && o in s.objs && s.objs[o].terminating
    ensures s.objs[o].destroyed
    decreases |Deeper(depth, o)|
  {
    if !s.objs[o].destroyed {
      var c := WaitsForChild(s, o);
      assert c in Deeper(depth, o) && c !in Deeper(depth, c);
      SubsetSize(Deeper(depth, c), Deeper(depth, o));
      QuietEnds(s, depth, c);
    }
  }

  /** Whether an object is in the tree of another, a number of steps down. */
  ghost predicate Under(s: Sys, c: Id, r: Id, steps: nat)
    decreases steps
  {
    c in s.objs &&
    if steps == 0 then c == r else s.objs[c].owner.Some? && Under(s, s.objs[c].owner.value, r, steps - 1)
  }

  lemma {:induction false} TreeEnds(s: Sys, depth: map<Id, nat>, c: Id, r: Id, steps: nat)
    requires Inv(s) && Quiet(s) && Ranked(s, depth) && Under(s, c, r, steps) && r in s.objs && s.objs[r].terminating
    ensures s.objs[c].destroyed
    decreases steps
  {
    hide Inv, Quiet, Ranked;
    if steps == 0 {
      QuietEnds(s, depth, r);
    } else {
      var q := s.objs[c].owner.value;
      TreeEnds(s, depth, q, r, steps - 1);
      DestroyedIsDone(s, q);
      assert IsChild(s, c, q);
    }
  }

  /** In every run: when nothing is on its way any more, the whole tree of a terminating object is gone. */
  lemma ShutdownCompletes(s: Sys, events: seq<Event>, t: Sys, c: Id, r: Id, steps: nat)
    requires Initial(s) && Reaches(s, events, t) && SameObjects(t) && Quiet(t)
    requires Under(t, c, r, steps) && r in t.objs && t.objs[r].terminating
    ensures t.objs[c].destroyed
  {
    hide Inv, Quiet, Under, Reaches, Initial, Ranked, SameObjects;
    InitialInv(s);
    RunInv(s, events, t);
    var start := InitialRanked(s);
    var depth := RunRanked(s, events, t, start);
    TreeEnds(t, depth, c, r, steps);
  }
}
