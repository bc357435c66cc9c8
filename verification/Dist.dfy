/**
 `dist_t`: distribution of messages to pipes. One array holds all pipes; the matching ones come
 first, then the other active ones, then the other eligible ones, then the rest.
 */
module Dists {
  import opened MTries
  import opened PipeArrays
  import opened Msgs

  /** Once those that are left are those that were tried with success, all were tried. */
  lemma AllTried(all: set<Pipe>, tried: set<Pipe>, full: set<Pipe>)
    requires tried <= all && all - (tried * full) == tried - full
    ensures tried == all && all - (tried * full) == all - full
  {
    forall p | p in all ensures p in tried {
      assert p in tried * full || p in all - (tried * full);
    }
  }

  class Dist {
    const pipes: PipeArray
    var matching: nat
    var active: nat
    var eligible: nat
    var more: bool
    ghost var whole: set<Pipe>      // the attached pipes that have all parts sent so far of the open message
    ghost var toAll: bool           // whether the open message goes to all active pipes

    /** The receivers of the next part of an open message. */
    ghost function Receivers(): set<Pipe>
      requires active <= |pipes.items| && matching <= |pipes.items|
      reads this, pipes
    {
      if toAll then Active() else Matching()
    }

    ghost predicate Valid()
      reads this, pipes
    {
      && pipes.Valid()
      && matching <= active <= eligible <= |pipes.items|
      && (!more ==> active == eligible)
      && (more ==> Receivers() == whole)
    }

    ghost function Matching(): set<Pipe>
      requires matching <= |pipes.items|
      reads this, pipes
    {
      Elements(pipes.items[..matching])
    }

    ghost function Active(): set<Pipe>
      requires active <= |pipes.items|
      reads this, pipes
    {
      Elements(pipes.items[..active])
    }

    ghost function Eligible(): set<Pipe>
      requires eligible <= |pipes.items|
      reads this, pipes
    {
      Elements(pipes.items[..eligible])
    }

    ghost function All(): set<Pipe>
      reads this, pipes
    {
      Elements(pipes.items)
    }

    constructor ()
      ensures Valid() && fresh(pipes) && All() == {} && !more
    {
      pipes := new PipeArray();
      matching, active, eligible, more := 0, 0, 0, false;
      whole, toAll := {}, false;
    }

    /** A new pipe takes part at once, or from the next message on if one is being sent. */
    method Attach(p: Pipe)
      requires Valid() && p !in pipes.items
      modifies this, pipes
      ensures Valid() && more == old(more) && whole == old(whole) && toAll == old(toAll)
      ensures All() == old(All()) + {p} && Matching() == old(Matching())
      ensures Eligible() == old(Eligible()) + {p}
      ensures Active() == old(Active()) + if more then {} else {p}
    {
      hide Elements, Distinct, Swapped, PipeArray.Valid;
      ghost var was := pipes.items;
      pipes.PushBack(p);
      pipes.ValidDistinct();
      if more {
        Entered(was, p, eligible);
        pipes.Swap(eligible, |pipes.items| - 1);
        eligible := eligible + 1;
      } else {
        Entered(was, p, active);
        pipes.Swap(active, |pipes.items| - 1);
        active := active + 1;
        eligible := eligible + 1;
      }
    }

    /** Marks a pipe as matching, if it can be sent to. */
    method Match(p: Pipe)
      requires Valid() && !more && p in pipes.items
      modifies this`matching, pipes
      ensures Valid()
      ensures All() == old(All()) && Active() == old(Active()) && Eligible() == old(Eligible())
      ensures Matching() == old(Matching()) + if p in old(Eligible()) then {p} else {}
    {
      ghost var s := pipes.items;
      pipes.ValidDistinct();
      var i := pipes.Index(p);
      assert p in Elements(s[..eligible]) <==> i < eligible by { Position(s, i, eligible); }
      assert p in Elements(s[..matching]) <==> i < matching by { Position(s, i, matching); }
      if i < matching {
        return;
      }
      if i >= eligible {
        return;
      }
      SwappedDistinct(s, i, matching);
      SwappedWithin(s, i, matching, active);
      BringIn(s, i, matching);
      pipes.Swap(i, matching);
      matching := matching + 1;
    }

    method Unmatch()
      requires Valid() && !more
      modifies this`matching
      ensures Valid() && matching == 0 && Matching() == {}
    {
      matching := 0;
    }

    /** The pipes that were eligible and not matching become the matching ones. */
    method ReverseMatch()
      requires Valid() && !more
      modifies this`matching, pipes
      ensures Valid()
      ensures All() == old(All()) && Active() == old(Active()) && Eligible() == old(Eligible())
      ensures Matching() == old(Eligible()) - old(Matching())
    {
      hide Elements, Distinct, PipeArray.Valid;
      ghost var s := pipes.items;
      pipes.ValidDistinct();
      var prev := matching;
      Unmatch();
      var i := prev;
      assert pipes.items[..0] == s[prev..prev];
      while i < eligible
        invariant prev <= i <= eligible && matching == i - prev && pipes.Valid()
        invariant |pipes.items| == |s| && Elements(pipes.items) == Elements(s)
        invariant pipes.items[i..] == s[i..]
        invariant Elements(pipes.items[..matching]) == Elements(s[prev..i])
        invariant Elements(pipes.items[..eligible]) == Elements(s[..eligible])
      {
        ghost var t := pipes.items;
        assert t[i] == t[i..][0] == s[i];
        TakeNext(i);
        assert s[i..][1..] == s[i + 1..] && s[prev..i + 1] == s[prev..i] + [s[i]];
        ElementsSnoc(s[prev..i], s[i]);
        i := i + 1;
      }
      DistinctSplit(s, prev, eligible);
    }

    /** One step of the reversal: the pipe at `i` goes to the end of the matching ones. */
    method TakeNext(i: nat)
      requires pipes.Valid() && matching <= i < eligible <= |pipes.items|
      modifies this`matching, pipes
      ensures pipes.Valid() && matching == old(matching) + 1
      ensures |pipes.items| == |old(pipes.items)| && Elements(pipes.items) == Elements(old(pipes.items))
      ensures pipes.items[i + 1..] == old(pipes.items)[i..][1..]
      ensures Elements(pipes.items[..matching]) == Elements(old(pipes.items)[..matching - 1]) + {old(pipes.items)[i]}
      ensures Elements(pipes.items[..eligible]) == Elements(old(pipes.items)[..eligible])
    {
      pipes.ValidDistinct();
      ghost var s := pipes.items;
      Position(s, i, matching);
      Position(s, i, eligible);
      pipes.Join(pipes.items[i], matching);
      matching := matching + 1;
    }

    /** Takes a pipe out of the distributor. */
    method PipeTerminated(p: Pipe)
      requires Valid() && p in pipes.items
      modifies this, pipes
      ensures Valid() && more == old(more) && whole == old(whole) - {p} && toAll == old(toAll)
      ensures All() == old(All()) - {p} && Matching() == old(Matching()) - {p}
      ensures Active() == old(Active()) - {p} && Eligible() == old(Eligible()) - {p}
    {
      LeaveAll(p, 0);
      whole := whole - {p};
      ghost var s := pipes.items;
      pipes.Erase(p);
      assert pipes.items[..eligible] == s[..eligible];
      assert pipes.items[..active] == pipes.items[..eligible][..active] == s[..active];
      assert pipes.items[..matching] == pipes.items[..eligible][..matching] == s[..matching];
    }

    /**
     Moves a pipe out of all three stretches, as far as it is in them. The first `kept` pipes are
     not affected.
     */
    method LeaveAll(p: Pipe, ghost kept: nat)
      requires pipes.Valid() && matching <= active <= eligible <= |pipes.items| && p in pipes.items
      requires kept <= matching && p !in pipes.items[..kept]
      modifies this`matching, this`active, this`eligible, pipes
      ensures pipes.Valid() && matching <= active <= eligible <= |pipes.items| && p in pipes.items
      ensures |pipes.items| == |old(pipes.items)|
      ensures All() == old(All()) && Matching() == old(Matching()) - {p}
      ensures Active() == old(Active()) - {p} && Eligible() == old(Eligible()) - {p}
      ensures p !in pipes.items[..eligible]
      ensures Elements(pipes.items[..kept]) == Elements(old(pipes.items)[..kept])
      ensures eligible == old(eligible) - (if p in old(Eligible()) then 1 else 0)
      ensures active == old(active) - (if p in old(Active()) then 1 else 0)
      ensures matching == old(matching) - (if p in old(Matching()) then 1 else 0)
    {
      ghost var s, m, a, e := pipes.items, matching, active, eligible;
      InElements(s[..m], p);
      InElements(s[..a], p);
      InElements(s[..e], p);
      InElements(s[..kept], p);
      assert s[..m] <= s[..a] <= s[..e];
      hide Elements, PipeArray.Valid;
      matching := pipes.Leave(p, matching);
      ghost var s1 := pipes.items;
      assert Elements(s1[..kept]) == Elements(s[..kept]) && Elements(s1[..a]) == Elements(s[..a]);
      InElements(s1[..a], p);
      InElements(s1[..kept], p);
      active := pipes.Leave(p, active);
      ghost var s2 := pipes.items;
      assert Elements(s2[..kept]) == Elements(s[..kept]) && Elements(s2[..matching]) == Elements(s1[..matching]);
      assert Elements(s2[..e]) == Elements(s1[..e]) == Elements(s[..e]);
      InElements(s2[..e], p);
      InElements(s2[..kept], p);
      InElements(s2[..matching], p);
      eligible := pipes.Leave(p, eligible);
    }

    /** A pipe that was full can be sent to again, from the next message on if one is being sent. */
    method Activated(p: Pipe)
      requires Valid() && p in pipes.items && p !in pipes.items[..eligible]
      modifies this, pipes
      ensures Valid() && more == old(more) && whole == old(whole) && toAll == old(toAll)
      ensures All() == old(All()) && Matching() == old(Matching())
      ensures Eligible() == old(Eligible()) + {p}
      ensures Active() == old(Active()) + if more then {} else {p}
    {
      if eligible < |pipes.items| {
        pipes.Join(p, eligible);
        eligible := eligible + 1;
      }
      if !more && active < |pipes.items| {
        assert eligible - 1 == active && Swapped(pipes.items, active, active) == pipes.items;
        pipes.Swap(eligible - 1, active);
        active := active + 1;
      }
    }

    /** A pipe that could not be written to is neither matching, active nor eligible any more. */
    method Fail(p: Pipe, ghost kept: nat)
      requires pipes.Valid() && matching <= active <= eligible <= |pipes.items| && p in pipes.items[..matching]
      requires kept <= matching && p !in pipes.items[..kept]
      modifies this`matching, this`active, this`eligible, pipes
      ensures pipes.Valid() && matching <= active <= eligible <= |pipes.items|
      ensures All() == old(All()) && Matching() == old(Matching()) - {p}
      ensures Active() == old(Active()) - {p} && Eligible() == old(Eligible()) - {p}
      ensures eligible - active == old(eligible) - old(active) && matching == old(matching) - 1
      ensures |pipes.items| == |old(pipes.items)|
      ensures Elements(pipes.items[..kept]) == Elements(old(pipes.items)[..kept])
    {
      ghost var s := pipes.items;
      assert s[..matching] <= s[..active] <= s[..eligible];
      LeaveAll(p, kept);
    }

    /**
     Writes to every matching pipe; `full` are the pipes a write to which fails. A pipe that fails
     is swapped away and the same position is tried again; the others are flushed after a last part.
     */
    method WriteToMatching(full: set<Pipe>, msgMore: bool)
      returns (attempts: seq<Pipe>, failed: nat, flushed: set<Pipe>)
      requires pipes.Valid() && matching <= active <= eligible <= |pipes.items|
      modifies this`matching, this`active, this`eligible, pipes
      ensures pipes.Valid() && matching <= active <= eligible <= |pipes.items|
      ensures eligible - active == old(eligible) - old(active)
      ensures Distinct(attempts) && Elements(attempts) == old(Matching())
      ensures matching + failed == old(matching)
      ensures flushed == if msgMore then {} else old(Matching()) - full
      ensures All() == old(All()) && Matching() == old(Matching()) - full
      ensures Active() == old(Active()) - (old(Matching()) * full)
      ensures Eligible() == old(Eligible()) - (old(Matching()) * full)
    {
      hide Distinct, PipeArray.Valid;
      DistinctNone();
      attempts, failed, flushed := [], 0, {};
      var i := 0;
      while i < matching
        invariant 0 <= i <= matching <= active <= eligible <= |pipes.items| && pipes.Valid()
        invariant eligible - active == old(eligible) - old(active) && matching + failed == old(matching)
        invariant Distinct(attempts) && Elements(attempts) <= old(Matching())
        invariant Elements(pipes.items[..i]) == Elements(attempts) - full
        invariant flushed == if msgMore then {} else Elements(attempts) - full
        invariant Matching() == old(Matching()) - (Elements(attempts) * full)
        invariant Active() == old(Active()) - (Elements(attempts) * full)
        invariant Eligible() == old(Eligible()) - (Elements(attempts) * full)
        invariant All() == old(All())
        decreases matching - i
      {
        ghost var s := pipes.items;
        pipes.ValidDistinct();
        var p := pipes.items[i];
        Position(s, i, i);
        Position(s, i, matching);
        assert p in Matching() && p !in s[..i] && p !in Elements(s[..i]);
        assert p !in Elements(attempts);
        DistinctSnoc(attempts, p);
        if p in full {
          Fail(p, i);
          failed := failed + 1;
        } else {
          assert s[..i + 1] == s[..i] + [p] && Elements(s[..i] + [p]) == Elements(s[..i]) + {p};
          i := i + 1;
          if !msgMore {
            flushed := flushed + {p};
          }
        }
        attempts := attempts + [p];
        assert Elements(pipes.items[..i]) == Elements(attempts) - full;
      }
      AllTried(old(Matching()), Elements(attempts), full);
    }

    /** Sends a message to the matching pipes and settles its references. */
    method Distribute(msg: Message, full: set<Pipe>) returns (attempts: seq<Pipe>, flushed: set<Pipe>)
      requires pipes.Valid() && matching <= active <= eligible <= |pipes.items| && msg.Valid()
      modifies this`matching, this`active, this`eligible, pipes, msg, msg.content
      ensures pipes.Valid() && matching <= active <= eligible <= |pipes.items|
      ensures eligible - active == old(eligible) - old(active)
      ensures Distinct(attempts) && Elements(attempts) == old(Matching())
      ensures All() == old(All()) && Matching() == old(Matching()) - full
      ensures Active() == old(Active()) - (old(Matching()) * full)
      ensures Eligible() == old(Eligible()) - (old(Matching()) * full)
      ensures flushed == if old(msg.more) then {} else Matching()
      ensures msg.kind == Vsm && msg.Valid()
      ensures old(msg.kind) == Long ==>
                var holders := old(msg.Holders()) - 1 + matching;
                && (msg.content.freed <==> holders == 0)
                && (old(matching) > 1 || old(msg.shared) ==> msg.content.refcnt == holders)
    {
      attempts, flushed := [], {};
      if matching == 0 {
        msg.Close();
        msg.Init();
        assert Elements(attempts) == Matching() && Matching() - full == {};
        return;
      }
      if msg.kind == Vsm {
        var failed;
        attempts, failed, flushed := WriteToMatching(full, msg.more);
        msg.Init();
        return;
      }
      msg.AddRefs(matching - 1);
      var failed;
      attempts, failed, flushed := WriteToMatching(full, msg.more);
      if failed > 0 {
        var left := msg.RmRefs(failed);
      }
      msg.Init();
    }

    /**
     Sends a part of a message to the matching pipes. The receivers of a later part are those that
     have had every part before it and are still attached.
     */
    method SendToMatching(msg: Message, full: set<Pipe>) returns (attempts: seq<Pipe>, flushed: set<Pipe>)
      requires Valid() && msg.Valid() && (more ==> !toAll)
      modifies this, pipes, msg, msg.content
      ensures Valid() && more == old(msg.more) && !toAll
      ensures Distinct(attempts) && Elements(attempts) == old(Matching())
      ensures flushed == if more then {} else Matching()
      ensures old(more) ==> Elements(attempts) == old(whole)
      ensures whole == old(Matching()) - full
      ensures All() == old(All()) && Matching() == old(Matching()) - full
      ensures Eligible() == old(Eligible()) - (old(Matching()) * full)
      ensures Active() == if more then old(Active()) - (old(Matching()) * full) else Eligible()
    {
      var msgMore := msg.more;
      attempts, flushed := Distribute(msg, full);
      if !msgMore {
        active := eligible;
      }
      whole := Matching();
      more := msgMore;
      toAll := false;
    }

    /** The same for all active pipes. */
    method SendToAll(msg: Message, full: set<Pipe>) returns (attempts: seq<Pipe>, flushed: set<Pipe>)
      requires Valid() && msg.Valid() && (more ==> toAll)
      modifies this, pipes, msg, msg.content
      ensures Valid() && more == old(msg.more) && toAll
      ensures Distinct(attempts) && Elements(attempts) == old(Active())
      ensures flushed == if more then {} else Matching()
      ensures old(more) ==> Elements(attempts) == old(whole)
      ensures whole == old(Active()) - full
      ensures All() == old(All()) && Matching() == old(Active()) - full
      ensures Eligible() == old(Eligible()) - (old(Active()) * full)
      ensures Active() == if more then old(Active()) - full else Eligible()
    {
      matching := active;
      var msgMore := msg.more;
      attempts, flushed := Distribute(msg, full);
      if !msgMore {
        active := eligible;
      }
      whole := Matching();
      more := msgMore;
      toAll := true;
    }
  }

  lemma InElements(s: seq<Pipe>, p: Pipe)
    ensures p in Elements(s) <==> p in s
  {
  }

  lemma ElementsSnoc(s: seq<Pipe>, p: Pipe)
    ensures Elements(s + [p]) == Elements(s) + {p}
  {
  }

  lemma DistinctSnoc(s: seq<Pipe>, p: Pipe)
    requires Distinct(s) && p !in s
    ensures Distinct(s + [p]) && Elements(s + [p]) == Elements(s) + {p}
  {
  }

  lemma DistinctSplit(s: seq<Pipe>, m: nat, n: nat)
    requires Distinct(s) && m <= n <= |s|
    ensures Elements(s[m..n]) == Elements(s[..n]) - Elements(s[..m])
  {
  }
}
