/**
 `fq_t`: fair queueing of messages from pipes. The active pipes are the first of the array; the
 current one is read next, and the turn passes on after each complete message.
 */
module FairQueues {
  import opened Bytes
  import opened MTries
  import opened PipeArrays

  datatype Part = Part(body: Key, more: bool)

  /** What there is to be read from each pipe. */
  type Inbox = map<Pipe, seq<Part>>

  predicate Readable(inbox: Inbox, p: Pipe) {
    p in inbox && inbox[p] != []
  }

  datatype Ring = Ring(items: seq<Pipe>, active: nat, current: nat, more: bool)

  /** The current pipe is an active one, unless there is none. */
  ghost predicate Sound(r: Ring) {
    && Distinct(r.items)
    && r.active <= |r.items|
    && (if r.active == 0 then r.current == 0 else r.current < r.active)
  }

  ghost function Active(r: Ring): set<Pipe>
    requires Sound(r)
  {
    Elements(r.items[..r.active])
  }

  /** An open message can be read on: its pipe has the next part. */
  predicate Continues(r: Ring, inbox: Inbox)
    requires r.active <= |r.items| && (r.active > 0 ==> r.current < r.active)
  {
    r.more ==> r.active > 0 && Readable(inbox, r.items[r.current])
  }

  /** The current pipe had nothing to read; the last active pipe takes its position. */
  function Passive(r: Ring): Ring
    requires r.current < r.active <= |r.items|
  {
    var a := r.active - 1;
    r.(items := Swapped(r.items, r.current, a), active := a, current := if r.current == a then 0 else r.current)
  }

  /** Makes pipes passive until the current one can be read. */
  function Skip(r: Ring, inbox: Inbox): Ring
    requires r.active <= |r.items| && (r.active > 0 ==> r.current < r.active)
    decreases r.active
  {
    if r.active == 0 || Readable(inbox, r.items[r.current]) then r else Skip(Passive(r), inbox)
  }

  /** A part was read from the current pipe. */
  function Advance(r: Ring, more: bool): Ring
    requires r.active > 0
  {
    r.(more := more, current := if more then r.current else (r.current + 1) % r.active)
  }

  function RecvOf(r: Ring, inbox: Inbox): (Ring, Option<(Pipe, Part)>)
    requires r.active <= |r.items| && (r.active > 0 ==> r.current < r.active)
  {
    var s := Skip(r, inbox);
    if s.active == 0 || s.current >= |s.items| || !Readable(inbox, s.items[s.current]) then (s, None) else
      var p := s.items[s.current];
      (Advance(s, inbox[p][0].more), Some((p, inbox[p][0])))
  }

  function HasInOf(r: Ring, inbox: Inbox): Ring
    requires r.active <= |r.items| && (r.active > 0 ==> r.current < r.active)
  {
    if r.more then r else Skip(r, inbox)
  }

  ghost function At(s: seq<Pipe>, p: Pipe): (i: nat)
    requires p in s
    ensures i < |s| && s[i] == p
  {
    var i :| 0 <= i < |s| && s[i] == p;
    i
  }

  /** The number of complete messages from other pipes that come before the turn of `p`. */
  ghost function Turn(r: Ring, p: Pipe): nat
    requires Sound(r) && p in Active(r)
  {
    Ahead(At(r.items[..r.active], p), r.current, r.active)
  }

  function Ahead(k: nat, current: nat, n: nat): nat
    requires k < n && current < n
  {
    if current <= k then k - current else k + n - current
  }

  lemma TurnIs(r: Ring, k: nat)
    requires Sound(r) && k < r.active
    ensures r.items[k] in Active(r) && Turn(r, r.items[k]) == Ahead(k, r.current, r.active) < r.active
  {
  }

  lemma PassiveKeeps(r: Ring)
    requires Sound(r) && r.active > 0
    ensures Sound(Passive(r)) && Active(Passive(r)) == Active(r) - {r.items[r.current]}
    ensures Elements(Passive(r).items) == Elements(r.items)
  {
    SwappedDistinct(r.items, r.current, r.active - 1);
    TakeOut(r.items, r.current, r.active);
  }

  /** No pipe waits longer because another one turned out to be empty. */
  lemma PassiveTurn(r: Ring, p: Pipe)
    requires Sound(r) && p in Active(r) && p != r.items[r.current]
    ensures Sound(Passive(r)) && p in Active(Passive(r)) && Turn(Passive(r), p) <= Turn(r, p)
  {
    PassiveKeeps(r);
    var k := At(r.items[..r.active], p);
    TurnIs(r, k);
    TurnIs(Passive(r), if k == r.active - 1 then r.current else k);
  }

  /** What is skipped are exactly pipes without anything to read, and a readable pipe ends it. */
  lemma {:induction false} SkipKeeps(r: Ring, inbox: Inbox)
    requires Sound(r)
    ensures var s := Skip(r, inbox);
      && Sound(s) && Elements(s.items) == Elements(r.items) && s.more == r.more
      && Active(s) <= Active(r)
      && (forall p | p in Active(r) - Active(s) :: !Readable(inbox, p))
      && (s.active > 0 ==> Readable(inbox, s.items[s.current]))
      && (s.active == 0 <==> forall p | p in Active(r) :: !Readable(inbox, p))
    decreases r.active
  {
    if r.active == 0 {
      assert Active(r) == {};
    } else if Readable(inbox, r.items[r.current]) {
      TurnIs(r, r.current);
    } else {
      PassiveKeeps(r);
      SkipKeeps(Passive(r), inbox);
    }
  }

  lemma {:induction false} SkipTurn(r: Ring, inbox: Inbox, p: Pipe)
    requires Sound(r) && p in Active(r) && Readable(inbox, p)
    ensures var s := Skip(r, inbox);
      Sound(s) && p in Active(s) && Turn(s, p) <= Turn(r, p)
    decreases r.active
  {
    if !Readable(inbox, r.items[r.current]) {
      PassiveTurn(r, p);
      SkipTurn(Passive(r), inbox, p);
    }
  }

  lemma AdvanceKeeps(r: Ring, more: bool)
    requires Sound(r) && r.active > 0
    ensures var s := Advance(r, more);
      && Sound(s) && Active(s) == Active(r) && s.items == r.items && s.active == r.active && s.more == more
      && s.current == if more then r.current else if r.current + 1 == r.active then 0 else r.current + 1
  {
  }

  lemma AdvanceTurn(r: Ring, p: Pipe)
    requires Sound(r) && p in Active(r) && p != r.items[r.current]
    ensures Sound(Advance(r, false)) && p in Active(Advance(r, false)) && Turn(Advance(r, false), p) == Turn(r, p) - 1
  {
    AdvanceKeeps(r, false);
    hide Advance, Sound, Distinct;
    var k := At(r.items[..r.active], p);
    TurnIs(r, k);
    TurnIs(Advance(r, false), k);
  }

  /** A receive fails only if no active pipe can be read; an open message is continued. */
  lemma RecvKeeps(r: Ring, inbox: Inbox)
    requires Sound(r) && Continues(r, inbox)
    ensures var (s, got) := RecvOf(r, inbox);
      && Sound(s) && Elements(s.items) == Elements(r.items) && Active(s) <= Active(r)
      && (forall p | p in Active(r) - Active(s) :: !Readable(inbox, p))
      && (got == None <==> forall p | p in Active(r) :: !Readable(inbox, p))
      && (got.Some? ==> var (p, part) := got.value;
            && p in Active(s) && Readable(inbox, p) && part == inbox[p][0] && s.more == part.more
            && (r.more ==> p == r.items[r.current])
            && (part.more ==> s.items[s.current] == p)
            && (!part.more ==> Turn(s, p) == s.active - 1))
  {
    SkipKeeps(r, inbox);
    hide Advance, Skip, Distinct, Elements;
    var s := Skip(r, inbox);
    if s.active > 0 {
      var part := inbox[s.items[s.current]][0];
      AdvanceKeeps(s, part.more);
      TurnIs(Advance(s, part.more), s.current);
    }
  }

  /** Either the pipe is served, or a complete message brings its turn nearer. */
  lemma RecvTurn(r: Ring, inbox: Inbox, p: Pipe)
    requires Sound(r) && Continues(r, inbox) && p in Active(r) && Readable(inbox, p)
    ensures var (s, got) := RecvOf(r, inbox);
      && Sound(s) && p in Active(s) && got.Some?
      && (got.value.0 != p ==> Turn(s, p) + (if got.value.1.more then 0 else 1) <= Turn(r, p))
  {
    RecvKeeps(r, inbox);
    SkipTurn(r, inbox, p);
    SkipKeeps(r, inbox);
    var s := Skip(r, inbox);
    var q := s.items[s.current];
    if q != p && !inbox[q][0].more {
      AdvanceTurn(s, p);
    }
  }

  /** When nothing can be read, the current position ends at the front, wherever it was. */
  lemma HasInResets(r: Ring, inbox: Inbox)
    requires Sound(r) && !r.more && forall p | p in Active(r) :: !Readable(inbox, p)
    ensures HasInOf(r, inbox).current == r.current <==> r.current == 0
  {
    SkipKeeps(r, inbox);
  }

  /** The current position does not get back to where it was. */
  lemma HasInMoves()
    ensures var r := Ring([7, 8], 2, 1, false);
      Sound(r) && (forall p | p in Active(r) :: !Readable(map[], p)) && HasInOf(r, map[]).current == 0
  {
    HasInResets(Ring([7, 8], 2, 1, false), map[]);
  }

  // ------------------------------------------------------------------ runs

  /** What the socket asks of the queue, with what can be read at that time. */
  datatype Call = Recv(inbox: Inbox) | HasIn(inbox: Inbox)

  ghost function Served(r: Ring, calls: seq<Call>): seq<(Pipe, Part)>
    requires Sound(r) && Fed(r, calls)
    decreases |calls|
  {
    if calls == [] then [] else
      CallKeeps(r, calls[0]);
      if calls[0].Recv? then
        var (s, got) := RecvOf(r, calls[0].inbox);
        (if got.Some? then [got.value] else []) + Served(s, calls[1..])
      else Served(HasInOf(r, calls[0].inbox), calls[1..])
  }

  ghost function After(r: Ring, call: Call): Ring
    requires Sound(r)
  {
    if call.Recv? then RecvOf(r, call.inbox).0 else HasInOf(r, call.inbox)
  }

  /** At every call of the run, the next part of an open message is there. */
  ghost predicate Fed(r: Ring, calls: seq<Call>)
    requires Sound(r)
    decreases |calls|
  {
    calls != [] ==>
      && Continues(r, calls[0].inbox)
      && Sound(After(r, calls[0]))
      && Fed(After(r, calls[0]), calls[1..])
  }

  lemma CallKeeps(r: Ring, call: Call)
    requires Sound(r) && Continues(r, call.inbox)
    ensures Sound(After(r, call))
  {
    if call.Recv? {
      RecvKeeps(r, call.inbox);
    } else {
      SkipKeeps(r, call.inbox);
    }
  }

  /** The number of complete messages received. */
  function Complete(served: seq<(Pipe, Part)>): nat {
    if served == [] then 0 else (if served[0].1.more then 0 else 1) + Complete(served[1..])
  }

  /**
   The bound on waiting: while an active pipe has something to read and is not served, the others
   have at most `active - 1` complete messages received from them, and no receive fails.
   */
  lemma {:induction false} FairBound(r: Ring, calls: seq<Call>, p: Pipe)
    requires Sound(r) && Fed(r, calls) && p in Active(r)
    requires forall c | c in calls :: Readable(c.inbox, p)
    requires forall x | x in Served(r, calls) :: x.0 != p
    ensures Complete(Served(r, calls)) <= Turn(r, p) < r.active
    ensures |Served(r, calls)| == |calls| - Polls(calls)
    decreases |calls|
  {
    TurnIs(r, At(r.items[..r.active], p));
    if calls != [] {
      var c, rest, s := calls[0], calls[1..], After(r, calls[0]);
      assert c in calls && forall d | d in rest :: d in calls;
      if c.Recv? {
        RecvTurn(r, c.inbox, p);
        var got := RecvOf(r, c.inbox).1;
        assert Served(r, calls) == [got.value] + Served(s, rest);
        assert Served(r, calls)[0] == got.value && Served(r, calls)[1..] == Served(s, rest);
      } else {
        SkipTurn(r, c.inbox, p);
      }
      FairBound(s, rest, p);
    }
  }

  function Polls(calls: seq<Call>): (n: nat)
    ensures n <= |calls|
  {
    if calls == [] then 0 else (if calls[0].HasIn? then 1 else 0) + Polls(calls[1..])
  }

  /** The parts of a message come one after the other, from one pipe. */
  lemma {:induction false} NotInterleaved(r: Ring, calls: seq<Call>, i: nat)
    requires Sound(r) && Fed(r, calls) && i + 1 < |Served(r, calls)| && Served(r, calls)[i].1.more
    ensures Served(r, calls)[i + 1].0 == Served(r, calls)[i].0
    decreases |calls|
  {
    var c, rest, s := calls[0], calls[1..], After(r, calls[0]);
    CallKeeps(r, c);
    if c.Recv? {
      RecvKeeps(r, c.inbox);
      var got := RecvOf(r, c.inbox).1;
      if got == None {
        NotInterleaved(s, rest, i);
      } else if i > 0 {
        NotInterleaved(s, rest, i - 1);
      } else {
        NextPart(s, rest);
      }
    } else {
      NotInterleaved(s, rest, i);
    }
  }

  /** The first part received while a message is open is from the current pipe. */
  lemma {:induction false} NextPart(r: Ring, calls: seq<Call>)
    requires Sound(r) && r.more && Fed(r, calls) && Served(r, calls) != []
    ensures r.active > 0 && Served(r, calls)[0].0 == r.items[r.current]
    decreases |calls|
  {
    var c := calls[0];
    if c.Recv? {
      RecvKeeps(r, c.inbox);
      SkipKeeps(r, c.inbox);
    } else {
      NextPart(r, calls[1..]);
    }
  }

  // ------------------------------------------------------------------ removal of a pipe

  /** A pipe is not active any more; the last active one takes its position. */
  function MovedOut(r: Ring, i: nat): Ring
    requires i < |r.items| && r.active <= |r.items|
  {
    if i >= r.active then r else
      var a := r.active - 1;
      r.(items := Swapped(r.items, i, a), active := a, current := if r.current == a then 0 else r.current)
  }

  function NewPosition(r: Ring, i: nat): nat {
    if i >= r.active then i else r.active - 1
  }

  function TerminatedOf(r: Ring, i: nat): Ring
    requires i < |r.items| && r.active <= |r.items|
  {
    var s := MovedOut(r, i);
    s.(items := Erased(s.items, NewPosition(r, i)))
  }

  lemma TerminatedIs(r: Ring, i: nat)
    requires i < |r.items| && r.active <= |r.items|
    ensures var s := MovedOut(r, i);
      NewPosition(r, i) < |s.items| && TerminatedOf(r, i) == s.(items := Erased(s.items, NewPosition(r, i)))
  {
  }

  lemma TerminatedKeeps(r: Ring, i: nat)
    requires Sound(r) && i < |r.items|
    ensures var s := TerminatedOf(r, i);
      && Sound(s) && s.more == r.more
      && Elements(s.items) == Elements(r.items) - {r.items[i]}
      && Active(s) == Active(r) - {r.items[i]}
  {
    var s := TerminatedOf(r, i);
    Position(r.items, i, r.active);
    assert r.items[i] in Active(r) <==> i < r.active;
    hide Distinct, Elements;
    if i < r.active {
      var t := Swapped(r.items, i, r.active - 1);
      SwappedDistinct(r.items, i, r.active - 1);
      TakeOut(r.items, i, r.active);
      ErasedKeeps(t, r.active - 1);
      assert t[r.active - 1] == r.items[i];
      assert s.items[..s.active] == t[..s.active];
    } else {
      ErasedKeeps(r.items, i);
      assert s.items[..s.active] == r.items[..s.active];
      assert Active(s) == Active(r) - {r.items[i]};
    }
  }

  lemma ErasedKeeps(s: seq<Pipe>, i: nat)
    requires Distinct(s) && i < |s|
    ensures Distinct(Erased(s, i)) && Elements(Erased(s, i)) == Elements(s) - {s[i]}
  {
    var n := |s|;
    SwappedDistinct(s, i, n - 1);
    TakeOut(s, i, n);
    assert Erased(s, i) == Swapped(s, i, n - 1)[..n - 1] && s[..n] == s;
  }

  /**
   The pipe of an open message stays the current one unless it was the last active pipe and fills
   a gap that is not at the front.
   */
  lemma CurrentKept(r: Ring, i: nat)
    requires Sound(r) && i < |r.items| && r.active > 0 && i != r.current
    ensures var s := TerminatedOf(r, i);
      s.current < s.active && s.items[s.current] == r.items[r.current] <==>
      !(0 < i < r.active && r.current == r.active - 1)
  {
  }

  /** After the removal of another pipe, an open message is read on from the wrong pipe. */
  lemma CurrentLost()
    ensures var r := Ring([7, 8, 9], 3, 2, true);
      Sound(r) && TerminatedOf(r, 1) == Ring([7, 9], 2, 0, true) && r.items[r.current] == 9
  {
  }

  // ------------------------------------------------------------------ the queue in place

  class Fq {
    const pipes: PipeArray
    var active: nat
    var current: nat
    var more: bool

    ghost function View(): Ring
      reads this, pipes
    {
      Ring(pipes.items, active, current, more)
    }

    ghost predicate Valid()
      reads this, pipes
    {
      pipes.Valid() && Sound(View())
    }

    constructor ()
      ensures Valid() && fresh(pipes) && View() == Ring([], 0, 0, false)
    {
      pipes := new PipeArray();
      active, current, more := 0, 0, false;
    }

    method Attach(p: Pipe)
      requires Valid() && p !in pipes.items
      modifies this, pipes
      ensures Valid() && more == old(more) && Elements(pipes.items) == Elements(old(pipes.items)) + {p}
      ensures Active(View()) == Active(old(View())) + {p}
      ensures old(active) > 0 ==> current == old(current) && pipes.items[current] == old(pipes.items[current])
    {
      ghost var was := pipes.items;
      pipes.PushBack(p);
      pipes.ValidDistinct();
      ghost var s, last := pipes.items, |pipes.items| - 1;
      assert s[..active] == was[..active];
      SwappedDistinct(s, active, last);
      SwappedSymmetric(s, active, last);
      BringIn(s, last, active);
      pipes.Swap(active, |pipes.items| - 1);
      active := active + 1;
    }

    /** A passive pipe has something to read again. */
    method Activated(p: Pipe)
      requires Valid() && p in pipes.items && p !in Active(View())
      modifies this, pipes
      ensures Valid() && more == old(more) && Elements(pipes.items) == Elements(old(pipes.items))
      ensures Active(View()) == Active(old(View())) + {p}
      ensures old(active) > 0 ==> current == old(current) && pipes.items[current] == old(pipes.items[current])
    {
      ghost var s := pipes.items;
      pipes.ValidDistinct();
      var i := pipes.Index(p);
      Position(s, i, active);
      SwappedDistinct(s, i, active);
      BringIn(s, i, active);
      pipes.Swap(pipes.Index(p), active);
      active := active + 1;
    }

    /** Takes a pipe out. */
    method PipeTerminated(p: Pipe)
      requires Valid() && p in pipes.items
      modifies this, pipes
      ensures Valid() && View() == TerminatedOf(old(View()), old(pipes.Index(p)))
      ensures Elements(pipes.items) == Elements(old(pipes.items)) - {p}
      ensures Active(View()) == Active(old(View())) - {p}
    {
      ghost var r, i := View(), pipes.Index(p);
      TerminatedKeeps(r, i);
      hide Elements, Distinct, Sound, TerminatedOf, MovedOut;
      MoveOut(p);
      EraseAway(p);
      TerminatedIs(r, i);
    }

    method MoveOut(p: Pipe)
      requires pipes.Valid() && p in pipes.items && active <= |pipes.items|
      modifies this`active, this`current, pipes
      ensures pipes.Valid() && p in pipes.items
      ensures View() == MovedOut(old(View()), old(pipes.Index(p)))
      ensures pipes.Index(p) == NewPosition(old(View()), old(pipes.Index(p)))
    {
      var i := pipes.Index(p);
      if i < active {
        active := active - 1;
        pipes.Swap(i, active);
        if current == active {
          current := 0;
        }
        assert pipes.items[active] == p;
      }
    }

    method EraseAway(p: Pipe)
      requires pipes.Valid() && p in pipes.items
      modifies pipes
      ensures pipes.Valid() && pipes.items == Erased(old(pipes.items), old(pipes.Index(p)))
    {
      pipes.Erase(p);
    }

    /** Receives a part; every pipe found empty becomes passive. */
    method RecvPipe(inbox: Inbox) returns (got: Option<(Pipe, Part)>)
      requires Valid() && Continues(View(), inbox)
      modifies this, pipes
      ensures Valid() && (View(), got) == RecvOf(old(View()), inbox)
    {
      RecvKeeps(View(), inbox);
      SkipKeeps(View(), inbox);
      hide Sound, PipeArray.Valid, Distinct, Elements;
      while active > 0
        invariant Valid() && Continues(View(), inbox) && Skip(View(), inbox) == Skip(old(View()), inbox)
        decreases active
      {
        var p := pipes.items[current];
        if Readable(inbox, p) {
          TakeTurn(inbox[p][0].more);
          return Some((p, inbox[p][0]));
        }
        assert !more;
        PassiveKeeps(View());
        SwapOut();
      }
      got := None;
    }

    /** The turn passes on after the last part of a message. */
    method TakeTurn(hasMore: bool)
      requires Valid() && active > 0
      modifies this`more, this`current
      ensures Valid() && View() == Advance(old(View()), hasMore)
    {
      AdvanceKeeps(View(), hasMore);
      more := hasMore;
      if !more {
        current := (current + 1) % active;
      }
    }

    /** The current pipe becomes passive. */
    method SwapOut()
      requires Valid() && active > 0
      modifies this, pipes
      ensures Valid() && View() == Passive(old(View()))
    {
      PassiveKeeps(View());
      active := active - 1;
      pipes.Swap(current, active);
      if current == active {
        current := 0;
      }
    }

    /** True iff a message is open or some active pipe can be read, which is then the current one. */
    method HasIn(inbox: Inbox) returns (ready: bool)
      requires Valid()
      modifies this, pipes
      ensures Valid() && View() == HasInOf(old(View()), inbox)
      ensures ready <==> old(more) || exists p :: p in Active(old(View())) && Readable(inbox, p)
      ensures ready && !more ==> active > 0 && Readable(inbox, pipes.items[current])
    {
      SkipKeeps(View(), inbox);
      if more {
        return true;
      }
      while active > 0
        invariant Valid() && !more && Skip(View(), inbox) == Skip(old(View()), inbox)
        decreases active
      {
        if Readable(inbox, pipes.items[current]) {
          return true;
        }
        SwapOut();
      }
      return false;
    }
  }
}
