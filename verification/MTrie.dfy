/** `mtrie_t`: the trie that maps every subscribed prefix to the pipes subscribed to it. */
module MTries {
  import opened Bytes
  import opened TrieNodes

  /** The address of a `pipe_t`. */
  type Pipe = nat

  /** The `_pipes` member: NULL, or a set that is never left empty. */
  type Pipes = Option<set<Pipe>>

  /** What an mtrie stands for: every prefix with at least one subscriber, and its subscribers. */
  type Subs = map<Key, set<Pipe>>

  ghost predicate Proper(m: Subs) {
    forall k :: k in m ==> m[k] != {}
  }

  function Holders(m: Subs, k: Key): set<Pipe> {
    if k in m then m[k] else {}
  }

  function Subscribed(m: Subs, k: Key, pipe: Pipe): Subs {
    m[k := Holders(m, k) + {pipe}]
  }

  function Cancelled(m: Subs, k: Key, pipe: Pipe): Subs {
    if Holders(m, k) - {pipe} == {} then m - {k} else m[k := m[k] - {pipe}]
  }

  /** The pipes subscribed to some prefix of the data. */
  ghost function Interested(m: Subs, data: Key): set<Pipe> {
    set i, p | 0 <= i <= |data| && p in Holders(m, data[..i]) :: p
  }

  datatype RmResult = NotFound | LastValueRemoved | ValuesRemain

  /** What `rm` of one prefix for one pipe reports. */
  function RmOutcome(m: Subs, k: Key, pipe: Pipe): RmResult {
    if pipe !in Holders(m, k) then NotFound
    else if Holders(m, k) == {pipe} then LastValueRemoved
    else ValuesRemain
  }

  function AsSet(v: Pipes): set<Pipe> {
    if v.Some? then v.value else {}
  }

  /** Takes a pipe out of a `_pipes` set, freeing the set with its last member. */
  function Erase(v: Pipes, pipe: Pipe): Pipes {
    if AsSet(v) - {pipe} == {} then None else Some(AsSet(v) - {pipe})
  }

  ghost function SubsOf(s: Store<Pipes>, at: map<Key, Ptr>): Subs {
    map k | k in at && at[k] in s && s[at[k]].val.Some? :: s[at[k]].val.value
  }

  /** No node keeps a `_pipes` set without members. */
  ghost predicate NoEmptySets(s: Store<Pipes>, at: map<Key, Ptr>) {
    forall q :: Get(s, at, None, q) != Some({})
  }

  /** The subscriptions of a store and its payloads say the same. */
  lemma SubsGet(s: Store<Pipes>, at: map<Key, Ptr>, k: Key)
    requires NoEmptySets(s, at)
    ensures Proper(SubsOf(s, at)) && Holders(SubsOf(s, at), k) == AsSet(Get(s, at, None, k))
  {
    forall q | q in SubsOf(s, at) ensures SubsOf(s, at)[q] != {} {
      assert Get(s, at, None, q) != Some({});
    }
  }

  lemma SubsAre(s: Store<Pipes>, at: map<Key, Ptr>, m: Subs)
    requires NoEmptySets(s, at) && Proper(m)
    requires forall q :: AsSet(Get(s, at, None, q)) == Holders(m, q)
    ensures SubsOf(s, at) == m
  {
    forall q
      ensures q in SubsOf(s, at) <==> q in m
      ensures q in m && q in SubsOf(s, at) ==> SubsOf(s, at)[q] == m[q]
    {
      assert AsSet(Get(s, at, None, q)) == Holders(m, q);
      SubsGet(s, at, q);
    }
  }

  /** Changing one payload changes the subscriptions to one prefix. */
  lemma SubsChange(s: Store<Pipes>, at: map<Key, Ptr>, t: Store<Pipes>, at': map<Key, Ptr>, k: Key, v: Pipes)
    requires NoEmptySets(s, at) && v != Some({}) && OneVal(s, at, t, at', None, k, v)
    ensures NoEmptySets(t, at')
    ensures SubsOf(t, at') == if v.None? then SubsOf(s, at) - {k} else SubsOf(s, at)[k := v.value]
  {
    var m := if v.None? then SubsOf(s, at) - {k} else SubsOf(s, at)[k := v.value];
    SubsGet(s, at, k);
    forall q ensures AsSet(Get(t, at', None, q)) == Holders(m, q) {
      SubsGet(s, at, q);
    }
    SubsAre(t, at', m);
  }

  /** Takes the deleted child for byte `c` out of the table of its parent and shrinks the table. */
  method Prune<P>(n: Node<P>, c: Byte) returns (m: Node<P>)
    requires WellFormed(n) && Compact(n) && Slot(n, c) != NULL
    ensures WellFormed(m) && Compact(m)
    ensures m.val == n.val && m.live == n.live - 1
    ensures forall d: Byte :: Slot(m, d) == if d == c then NULL else Slot(n, d)
  {
    assert n.count > 0;
    if n.count == 1 {
      m := n.(next := One(NULL), count := 0, live := n.live - 1);
      assert m.live == 0;
      return;
    }
    assert n.live > 1 by {
      CountLiveOne(n.next.table, 0);
      assert n.next.table[n.count - 1] != NULL;
    }
    var h := Hole(n, c);
    if h.live == 1 {
      var i := 0;
      while i < h.count && h.next.table[i] == NULL
        invariant 0 <= i <= h.count
        invariant forall j :: 0 <= j < i ==> h.next.table[j] == NULL
      {
        i := i + 1;
      }
      CountLiveZero(h.next.table);
      assert i < h.count;
      m := Single(h, i);
    } else if c == n.min {
      m := ShrinkLeft(h);
    } else if c == n.min + n.count - 1 {
      m := ShrinkRight(h);
    } else {
      m := h;
    }
  }

  /** A frame of the explicit stack of `rm` by prefix. */
  datatype Iter = Iter(node: Ptr, next: Ptr, prefix: Key, child: Byte, processed: bool)

  /** The frame of the node `j` levels down, waiting for its child on the way to `key` to be dealt with. */
  ghost predicate WaitsAt(at: map<Key, Ptr>, key: Key, j: nat, it: Iter) {
    && j < |key| && key[..j] in at && key[..j + 1] in at
    && it == Iter(at[key[..j]], at[key[..j + 1]], key[j..], key[j], true)
  }

  ghost predicate Waiting(at: map<Key, Ptr>, key: Key, stack: seq<Iter>) {
    forall j :: 0 <= j < |stack| ==> WaitsAt(at, key, j, stack[j])
  }

  /** The first visit to the node `n` levels down. */
  ghost predicate Visiting(at: map<Key, Ptr>, key: Key, n: nat, it: Iter) {
    n <= |key| && key[..n] in at && it == Iter(at[key[..n]], NULL, key[n..], 0, false)
  }

  class MTrie {
    const tree: Tree<Pipes>
    var numPrefixes: nat

    ghost predicate Valid()
      reads this, tree
    {
      && tree.zero == None
      && tree.Valid()
      && NoEmptySets(tree.nodes, tree.at)
      && |Subs()| <= numPrefixes
    }

    ghost function Subs(): Subs
      reads tree
    {
      SubsOf(tree.nodes, tree.at)
    }

    constructor ()
      ensures Valid() && fresh(tree) && Subs() == map[] && numPrefixes == 0
    {
      tree := new Tree(None);
      numPrefixes := 0;
      new;
      SubsAre(tree.nodes, tree.at, map[]);
    }

    /** Walks down to the node of a prefix, creating the nodes that are missing on the way. */
    method Locate(prefix: Key) returns (it: Ptr)
      requires tree.zero == None && tree.Valid()
      modifies tree
      ensures tree.IsAt(prefix, it) && tree.ValidExcept({}, {prefix})
      ensures SameVals(old(tree.nodes), old(tree.at), tree.nodes, tree.at, None)
    {
      hide Good;
      Weaken(tree.nodes, tree.at, tree.path, None, {}, {}, {}, {[]});
      it := tree.root;
      var i := 0;
      while i < |prefix|
        invariant 0 <= i <= |prefix|
        invariant tree.IsAt(prefix[..i], it) && tree.ValidExcept({}, {prefix[..i]})
        invariant SameVals(old(tree.nodes), old(tree.at), tree.nodes, tree.at, None)
      {
        it := tree.Descend(it, prefix[..i], prefix[i]);
        assert prefix[..i + 1] == Snoc(prefix[..i], prefix[i]);
        i := i + 1;
      }
      assert prefix[..i] == prefix;
    }

    /** Subscribes a pipe to a prefix; true iff nobody was subscribed to it. */
    method Add(prefix: Key, pipe: Pipe) returns (r: bool)
      requires Valid()
      modifies this, tree
      ensures Valid()
      ensures r <==> prefix !in old(Subs())
      ensures Subs() == Subscribed(old(Subs()), prefix, pipe)
      ensures numPrefixes == old(numPrefixes) + if r then 1 else 0
    {
      hide Good;
      SubsGet(tree.nodes, tree.at, prefix);
      var it := Locate(prefix);
      NodeOf(tree.nodes, tree.at, tree.path, None, {}, {prefix}, prefix);
      var pipes := tree.nodes[it].val;
      assert pipes == Get(old(tree.nodes), old(tree.at), None, prefix);
      r := pipes.None?;
      if pipes.None? {
        pipes := Some({});
        numPrefixes := numPrefixes + 1;
      }
      pipes := Some(pipes.value + {pipe});
      tree.SetVal(it, prefix, pipes, {}, {prefix}, {});
      SubsChange(old(tree.nodes), old(tree.at), tree.nodes, tree.at, prefix, pipes);
    }

    /** Takes the pipe out of the set of the node the prefix leads to. */
    method EraseAt(p: Ptr, ghost k: Key, pipe: Pipe) returns (ret: RmResult)
      requires tree.zero == None && tree.Valid() && NoEmptySets(tree.nodes, tree.at) && tree.IsAt(k, p)
      modifies tree`nodes
      ensures tree.ValidExcept({}, {k})
      ensures ret == RmOutcome(old(Subs()), k, pipe)
      ensures OneVal(old(tree.nodes), tree.at, tree.nodes, tree.at, None, k,
                     Erase(Get(old(tree.nodes), tree.at, None, k), pipe))
    {
      hide Good;
      NodeOf(tree.nodes, tree.at, tree.path, None, {}, {}, k);
      Weaken(tree.nodes, tree.at, tree.path, None, {}, {}, {}, {k});
      SubsGet(tree.nodes, tree.at, k);
      var pipes := tree.nodes[p].val;
      assert pipes == Get(tree.nodes, tree.at, None, k);
      if pipes.None? {
        return NotFound;
      }
      var erased := if pipe in pipes.value then 1 else 0;
      var rest := pipes.value - {pipe};
      if rest == {} {
        assert erased == 1;
        tree.SetVal(p, k, None, {}, {}, {k});
        return LastValueRemoved;
      }
      tree.SetVal(p, k, Some(rest), {}, {}, {k});
      return if erased == 1 then ValuesRemain else NotFound;
    }

    /** Deletes the child for byte `c` of the node of `k` if it has become redundant. */
    method PruneChild(p: Ptr, ghost k: Key, c: Byte, child: Ptr)
      requires tree.zero == None && tree.ValidExcept({}, {Snoc(k, c)})
      requires tree.IsAt(Snoc(k, c), child) && tree.IsAt(k, p)
      modifies tree
      ensures tree.IsAt(k, p) && tree.ValidExcept({}, {k})
      ensures forall q :: q in old(tree.at) && q != Snoc(k, c) ==> q in tree.at && tree.at[q] == old(tree.at)[q]
      ensures SameVals(old(tree.nodes), old(tree.at), tree.nodes, tree.at, None)
    {
      hide Good, Shape;
      NodeOf(tree.nodes, tree.at, tree.path, None, {}, {Snoc(k, c)}, Snoc(k, c));
      NodeOf(tree.nodes, tree.at, tree.path, None, {}, {Snoc(k, c)}, k);
      if tree.nodes[child].val.None? && tree.nodes[child].live == 0 {
        var n := Prune(tree.nodes[p], c);
        tree.Unlink(p, k, c, child, n, {}, {Snoc(k, c)}, {k});
      } else {
        NotRedundant(tree.nodes, tree.at, tree.path, None, {}, {Snoc(k, c)}, Snoc(k, c), {k});
      }
    }

    /** The walk of `rm` by prefix, down to the node and back, on an explicit stack. */
    method RmWalk(prefix: Key, pipe: Pipe) returns (ret: RmResult)
      requires Valid()
      modifies tree
      ensures tree.Valid()
      ensures ret == RmOutcome(old(Subs()), prefix, pipe)
      ensures OneVal(old(tree.nodes), old(tree.at), tree.nodes, tree.at, None, prefix,
                     Erase(Get(old(tree.nodes), old(tree.at), None, prefix), pipe))
    {
      hide Good, Shape, OneVal, RmOutcome, Erase, SubsOf;
      ret := NotFound;
      ghost var v := Get(tree.nodes, tree.at, None, prefix);
      var stack := [Iter(tree.root, NULL, prefix, 0, false)];
      ghost var down := true;
      while stack != []
        invariant down ==> && stack != [] && tree.nodes == old(tree.nodes) && tree.at == old(tree.at) && tree.Valid()
                           && Waiting(tree.at, prefix, stack[..|stack| - 1])
                           && Visiting(tree.at, prefix, |stack| - 1, stack[|stack| - 1])
        invariant !down ==> && Waiting(tree.at, prefix, stack) && |stack| <= |prefix| && prefix[..|stack|] in tree.at
                            && tree.ValidExcept({}, {prefix[..|stack|]})
                            && ret == RmOutcome(old(Subs()), prefix, pipe)
                            && OneVal(old(tree.nodes), old(tree.at), tree.nodes, tree.at, None, prefix, Erase(v, pipe))
        decreases down, if down then |prefix| + 1 - |stack| else |stack|
      {
        var it := stack[|stack| - 1];
        stack := stack[..|stack| - 1];
        if !it.processed {
          assert down;
          if it.prefix == [] {
            assert prefix[..|stack|] == prefix;
            ret := EraseAt(it.node, prefix, pipe);
            down := false;
            continue;
          }
          ghost var k := prefix[..|stack|];
          NodeOf(tree.nodes, tree.at, tree.path, None, {}, {}, k);
          var n, c := tree.nodes[it.node], it.prefix[0];
          assert prefix[..|stack| + 1] == Snoc(k, c);
          it := it.(child := c);
          if n.count == 0 || c < n.min || c >= n.min + n.count {
            Missing(prefix, |stack|, pipe);
            ret, down := NotFound, false;
            continue;
          }
          it := it.(next := if n.count == 1 then n.next.node else n.next.table[c - n.min]);
          assert it.next == Slot(n, c) == ChildAt(tree.at, Snoc(k, c));
          if it.next == NULL {
            Missing(prefix, |stack|, pipe);
            ret, down := NotFound, false;
            continue;
          }
          it := it.(processed := true);
          stack := stack + [it] + [Iter(it.next, NULL, it.prefix[1..], 0, false)];
        } else {
          it := it.(processed := false);
          ghost var k := prefix[..|stack|];
          assert prefix[..|stack| + 1] == Snoc(k, it.child);
          ghost var s, at := tree.nodes, tree.at;
          PruneChild(it.node, k, it.child, it.next);
          OneThenSame(old(tree.nodes), old(tree.at), s, at, tree.nodes, tree.at, None, prefix, Erase(v, pipe));
        }
      }
      assert prefix[..0] == [];
      Weaken(tree.nodes, tree.at, tree.path, None, {}, {[]}, {}, {});
    }

    /** Nothing is stored for a prefix that leaves the tree `n` levels down. */
    lemma Missing(prefix: Key, n: nat, pipe: Pipe)
      requires Valid() && n < |prefix| && prefix[..n] in tree.at
      requires Slot(tree.nodes[tree.at[prefix[..n]]], prefix[n]) == NULL
      ensures tree.ValidExcept({}, {prefix[..n]})
      ensures RmOutcome(Subs(), prefix, pipe) == NotFound
      ensures OneVal(tree.nodes, tree.at, tree.nodes, tree.at, None, prefix,
                     Erase(Get(tree.nodes, tree.at, None, prefix), pipe))
    {
      NothingBelow(tree.nodes, tree.at, tree.path, prefix[..n], prefix[n], prefix);
    }

    /** Cancels the subscription of a pipe to a prefix. */
    method Rm(prefix: Key, pipe: Pipe) returns (ret: RmResult)
      requires Valid()
      modifies this, tree
      ensures Valid()
      ensures ret == RmOutcome(old(Subs()), prefix, pipe)
      ensures Subs() == Cancelled(old(Subs()), prefix, pipe)
      ensures numPrefixes == old(numPrefixes) - if ret == LastValueRemoved then 1 else 0
    {
      hide Good;
      SubsGet(tree.nodes, tree.at, prefix);
      ghost var v := Erase(Get(tree.nodes, tree.at, None, prefix), pipe);
      ret := RmWalk(prefix, pipe);
      SubsChange(old(tree.nodes), old(tree.at), tree.nodes, tree.at, prefix, v);
      if ret == LastValueRemoved {
        assert numPrefixes > 0;
        numPrefixes := numPrefixes - 1;
      }
    }

    /** Calls back, prefix by prefix, with the pipes subscribed to every prefix of the data. */
    method Match(data: Key) returns (calls: seq<set<Pipe>>)
      requires Valid()
      ensures |calls| <= |data| + 1 && forall i :: 0 <= i < |calls| ==> calls[i] == Holders(Subs(), data[..i])
      ensures Interested(Subs(), data) == set i, p | 0 <= i < |calls| && p in calls[i] :: p
    {
      hide Good, Shape;
      calls := [];
      var current: Ptr, i := tree.root, 0;
      while true
        invariant 0 <= i == |calls| <= |data|
        invariant tree.IsAt(data[..i], current)
        invariant forall j :: 0 <= j < i ==> calls[j] == Holders(Subs(), data[..j])
        decreases |data| - i
      {
        NodeOf(tree.nodes, tree.at, tree.path, None, {}, {}, data[..i]);
        SubsGet(tree.nodes, tree.at, data[..i]);
        var n := tree.nodes[current];
        calls := calls + [AsSet(n.val)];
        if i == |data| || n.count == 0 {
          break;
        }
        var c := data[i];
        assert data[..i + 1] == Snoc(data[..i], c);
        if n.count == 1 {
          if c != n.min {
            break;
          }
          current := n.next.node;
        } else {
          if c < n.min || c >= n.min + n.count {
            break;
          }
          current := n.next.table[c - n.min];
        }
        assert current == Slot(n, c);
        if current == NULL {
          break;
        }
        i := i + 1;
      }
      NoneFurther(data, i);
    }

    /** Where the tree has no child for the next byte of the data, no longer prefix has subscribers. */
    lemma NoneFurther(data: Key, i: nat)
      requires Valid() && i <= |data| && data[..i] in tree.at
      requires i < |data| ==> Slot(tree.nodes[tree.at[data[..i]]], data[i]) == NULL
      ensures forall j :: i < j <= |data| ==> Holders(Subs(), data[..j]) == {}
    {
      forall j | i < j <= |data|
        ensures Holders(Subs(), data[..j]) == {}
      {
        assert Snoc(data[..i], data[i]) == data[..i + 1];
        NothingBelow(tree.nodes, tree.at, tree.path, data[..i], data[i], data[..j]);
      }
    }
  }
}
