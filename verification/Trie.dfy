/** `trie_t`: the reference-counted prefix trie that XSUB keeps its subscriptions in. */
module Tries {
  import opened Bytes
  import opened TrieNodes

  /** A multiset of keys, as the number of copies of each key it holds. */
  type Bag = m: map<Key, nat> | forall k :: k in m ==> m[k] > 0

  function Copies(m: Bag, k: Key): nat {
    if k in m then m[k] else 0
  }

  function Inserted(m: Bag, k: Key): Bag {
    m[k := Copies(m, k) + 1]
  }

  function Removed(m: Bag, k: Key): Bag {
    if Copies(m, k) > 1 then m[k := m[k] - 1] else m - {k}
  }

  /** Some stored key is a prefix of the data. */
  ghost predicate Accepts(m: Bag, data: Key) {
    exists i :: 0 <= i <= |data| && data[..i] in m
  }

  // ------------------------------------------------------------------ subscriptions are counted

  datatype Change = Ins(key: Key) | Rem(key: Key)

  /** What a run of insertions and removals leaves. */
  function BagAfter(run: seq<Change>): Bag {
    if run == [] then map[] else
      var before, c := BagAfter(run[..|run| - 1]), run[|run| - 1];
      match c
      case Ins(k) => Inserted(before, k)
      case Rem(k) => Removed(before, k)
  }

  /** The insertions of a key not yet taken back by a removal. */
  function Balance(run: seq<Change>, k: Key): nat {
    if run == [] then 0 else
      var n, c := Balance(run[..|run| - 1], k), run[|run| - 1];
      if c == Ins(k) then n + 1 else if c == Rem(k) && n > 0 then n - 1 else n
  }

  /** After every run the trie holds each key as often as it was inserted and not removed again. */
  lemma {:induction false} Counted(run: seq<Change>, k: Key)
    ensures Copies(BagAfter(run), k) == Balance(run, k)
    ensures k in BagAfter(run) <==> Balance(run, k) > 0
    decreases |run|
  {
    if run != [] {
      Counted(run[..|run| - 1], k);
    }
  }

  /** A store holds the bag whose numbers of copies its payloads are. */
  lemma BagIs(s: Store<nat>, at: map<Key, Ptr>, m: Bag)
    requires forall q :: Get(s, at, 0, q) == Copies(m, q)
    ensures Contents(s, at, 0) == m
  {
    forall q
      ensures q in Contents(s, at, 0) <==> q in m
      ensures q in m && q in Contents(s, at, 0) ==> Contents(s, at, 0)[q] == m[q]
    {
      GetContents(s, at, 0, q);
    }
  }

  lemma BagInserted(s: Store<nat>, at: map<Key, Ptr>, t: Store<nat>, at': map<Key, Ptr>, k: Key)
    requires OneVal(s, at, t, at', 0, k, Get(s, at, 0, k) + 1)
    ensures Contents(t, at', 0) == Inserted(Contents(s, at, 0), k)
  {
    var m := Inserted(Contents(s, at, 0), k);
    forall q ensures Get(t, at', 0, q) == Copies(m, q) {
      GetContents(s, at, 0, q);
    }
    BagIs(t, at', m);
  }

  lemma BagRemoved(s: Store<nat>, at: map<Key, Ptr>, t: Store<nat>, at': map<Key, Ptr>, k: Key)
    requires OneVal(s, at, t, at', 0, k, if Get(s, at, 0, k) > 0 then Get(s, at, 0, k) - 1 else 0)
    ensures Contents(t, at', 0) == Removed(Contents(s, at, 0), k)
  {
    var m := Removed(Contents(s, at, 0), k);
    forall q ensures Get(t, at', 0, q) == Copies(m, q) {
      GetContents(s, at, 0, q);
    }
    BagIs(t, at', m);
  }

  /**
   Takes the child for byte `c`, already deleted, out of the table of its parent and shrinks the
   table. When two children become one, the survivor is looked for at the ends of the table only.
   */
  method Prune(n: Node<nat>, c: Byte) returns (m: Node<nat>)
    requires WellFormed(n) && Compact(n) && Slot(n, c) != NULL
    ensures WellFormed(m) && Compact(m)
    ensures m.val == n.val && m.live == n.live - 1
    ensures forall d: Byte :: Slot(m, d) == if d == c then NULL else Slot(n, d)
  {
    assert n.count > 0;
    if n.count == 1 {
      m := n.(next := One(NULL), count := 0, live := n.live - 1);
      assert m.live == 0;
      return;
    }
    assert n.live > 1 by {
      CountLiveOne(n.next.table, 0);
    }
    var h := Hole(n, c);
    if h.live == 1 {
      var node, i := NULL, 0;
      if c == n.min {
        i := n.count - 1;
        node := h.next.table[n.count - 1];
      } else if c == n.min + n.count - 1 {
        node := h.next.table[0];
      } else {
        CountLiveOne(h.next.table, 0);
      }
      assert node != NULL;
      m := Single(h, i);
    } else if c == n.min {
      m := ShrinkLeft(h);
    } else if c == n.min + n.count - 1 {
      m := ShrinkRight(h);
    } else {
      m := h;
    }
  }

  class Trie {
    const tree: Tree<nat>

    ghost predicate Valid()
      reads tree
    {
      tree.zero == 0 && tree.Valid()
    }

    /** The keys stored, each with its reference count. */
    ghost function Bag(): Bag
      reads tree
    {
      if tree.zero == 0 then Contents(tree.nodes, tree.at, 0) else map[]
    }

    constructor ()
      ensures Valid() && fresh(tree) && Bag() == map[]
    {
      tree := new Tree(0);
      new;
      BagIs(tree.nodes, tree.at, map[]);
    }

    method AddAt(p: Ptr, ghost k: Key, prefix: Key) returns (r: bool)
      requires tree.zero == 0 && tree.IsAt(k, p) && tree.ValidExcept({}, {k})
      modifies tree
      ensures Valid()
      ensures var v := Get(old(tree.nodes), old(tree.at), 0, k + prefix);
              && (r <==> v == 0)
              && OneVal(old(tree.nodes), old(tree.at), tree.nodes, tree.at, 0, k + prefix, v + 1)
      decreases |prefix|
    {
      hide Good;
      if prefix == [] {
        assert k + prefix == k;
        NodeOf(tree.nodes, tree.at, tree.path, 0, {}, {k}, k);
        var refcnt := tree.nodes[p].val + 1;
        tree.SetVal(p, k, refcnt, {}, {k}, {});
        r := refcnt == 1;
      } else {
        var child := tree.Descend(p, k, prefix[0]);
        assert Snoc(k, prefix[0]) + prefix[1..] == k + prefix;
        r := AddAt(child, Snoc(k, prefix[0]), prefix[1..]);
      }
    }

    method RmAt(p: Ptr, ghost k: Key, prefix: Key) returns (r: bool)
      requires tree.IsAt(k, p) && Valid()
      modifies tree
      ensures tree.IsAt(k, p) && tree.ValidExcept({}, {k})
      ensures forall q :: q in tree.at ==> q in old(tree.at) && tree.at[q] == old(tree.at)[q]
      ensures var v := Get(old(tree.nodes), old(tree.at), 0, k + prefix);
              && (r <==> v == 1)
              && OneVal(old(tree.nodes), old(tree.at), tree.nodes, tree.at, 0, k + prefix, if v > 0 then v - 1 else 0)
      decreases |prefix|
    {
      hide Good, Shape;
      NodeOf(tree.nodes, tree.at, tree.path, 0, {}, {}, k);
      Weaken(tree.nodes, tree.at, tree.path, 0, {}, {}, {}, {k});
      var n := tree.nodes[p];
      if prefix == [] {
        assert k + prefix == k;
        if n.val == 0 {
          return false;
        }
        tree.SetVal(p, k, n.val - 1, {}, {}, {k});
        return n.val - 1 == 0;
      }
      var c := prefix[0];
      var child := NULL;
      if !(n.count == 0 || c < n.min || c >= n.min + n.count) {
        child := if n.count == 1 then n.next.node else n.next.table[c - n.min];
      }
      assert child == Slot(n, c) == ChildAt(tree.at, Snoc(k, c));
      assert Snoc(k, c) + prefix[1..] == k + prefix;
      if child == NULL {
        NothingBelow(tree.nodes, tree.at, tree.path, k, c, k + prefix);
        return false;
      }
      r := RmAt(child, Snoc(k, c), prefix[1..]);
      PruneChild(p, k, c, child);
    }

    /** Deletes the child for byte `c` of the node of `k` if it has become redundant. */
    method PruneChild(p: Ptr, ghost k: Key, c: Byte, child: Ptr)
      requires tree.zero == 0 && tree.ValidExcept({}, {Snoc(k, c)})
      requires tree.IsAt(Snoc(k, c), child) && (k in tree.at ==> tree.at[k] == p)
      modifies tree
      ensures tree.IsAt(k, p) && tree.ValidExcept({}, {k})
      ensures forall q :: q in tree.at ==> q in old(tree.at) && tree.at[q] == old(tree.at)[q]
      ensures SameVals(old(tree.nodes), old(tree.at), tree.nodes, tree.at, 0)
    {
      hide Good, Shape;
      NodeOf(tree.nodes, tree.at, tree.path, 0, {}, {Snoc(k, c)}, Snoc(k, c));
      ParentOf(tree.nodes, tree.at, tree.path, k, c);
      NodeOf(tree.nodes, tree.at, tree.path, 0, {}, {Snoc(k, c)}, k);
      if tree.nodes[child].val == 0 && tree.nodes[child].live == 0 {
        var n := Prune(tree.nodes[p], c);
        tree.Unlink(p, k, c, child, n, {}, {Snoc(k, c)}, {k});
      } else {
        NotRedundant(tree.nodes, tree.at, tree.path, 0, {}, {Snoc(k, c)}, Snoc(k, c), {k});
      }
    }

    /** Adds one copy of a key; true iff there was none. */
    method Add(prefix: Key) returns (r: bool)
      requires Valid()
      modifies tree
      ensures Valid()
      ensures r <==> prefix !in old(Bag())
      ensures Bag() == Inserted(old(Bag()), prefix)
    {
      hide Good;
      Weaken(tree.nodes, tree.at, tree.path, 0, {}, {}, {}, {[]});
      GetContents(tree.nodes, tree.at, 0, prefix);
      r := AddAt(tree.root, [], prefix);
      assert [] + prefix == prefix;
      BagInserted(old(tree.nodes), old(tree.at), tree.nodes, tree.at, prefix);
    }

    /** Removes one copy of a key; true iff it was the last one. Nothing happens when there is none. */
    method Rm(prefix: Key) returns (r: bool)
      requires Valid()
      modifies tree
      ensures Valid()
      ensures r <==> Copies(old(Bag()), prefix) == 1
      ensures Bag() == Removed(old(Bag()), prefix)
    {
      hide Good;
      GetContents(tree.nodes, tree.at, 0, prefix);
      r := RmAt(tree.root, [], prefix);
      assert [] + prefix == prefix;
      Weaken(tree.nodes, tree.at, tree.path, 0, {}, {[]}, {}, {});
      BagRemoved(old(tree.nodes), old(tree.at), tree.nodes, tree.at, prefix);
    }

    /** True iff some stored key is a prefix of the data. */
    method Check(data: Key) returns (r: bool)
      requires Valid()
      ensures r <==> Accepts(Bag(), data)
    {
      hide Good, Shape;
      var current: Ptr, i := tree.root, 0;
      while true
        invariant 0 <= i <= |data|
        invariant tree.IsAt(data[..i], current)
        invariant forall j :: 0 <= j < i ==> data[..j] !in Bag()
        decreases |data| - i
      {
        NodeOf(tree.nodes, tree.at, tree.path, 0, {}, {}, data[..i]);
        var n := tree.nodes[current];
        if n.val != 0 {
          assert data[..i] in Bag();
          return true;
        }
        if i == |data| {
          return false;
        }
        var c := data[i];
        assert data[..i + 1] == Snoc(data[..i], c);
        var next := NULL;
        if !(c < n.min || c >= n.min + n.count) {
          next := if n.count == 1 then n.next.node else n.next.table[c - n.min];
        }
        assert next == Slot(n, c) == ChildAt(tree.at, data[..i + 1]);
        if next == NULL {
          forall j | i < j <= |data|
            ensures data[..j] !in Bag()
          {
            NothingBelow(tree.nodes, tree.at, tree.path, data[..i], c, data[..j]);
          }
          return false;
        }
        current, i := next, i + 1;
      }
    }

    /** What a walk met before byte `c`, plus what the child for `c` returned, is what it met before `c + 1`. */
    lemma WalkChild(k: Key, c: Byte, calls: seq<Key>, more: seq<Key>)
      requires Valid() && k in tree.at && Lists(calls, Visited(Bag().Keys, k, c))
      requires if ChildAt(tree.at, Snoc(k, c)) == NULL then more == []
               else Lists(more, Visited(Bag().Keys, Snoc(k, c), 256))
      ensures Lists(calls + more, Visited(Bag().Keys, k, c + 1))
    {
      var keys := Bag().Keys;
      if ChildAt(tree.at, Snoc(k, c)) == NULL {
        VisitEmpty(tree.nodes, tree.at, tree.path, keys, k, c, c + 1);
        assert calls + more == calls;
      } else {
        VisitChild(keys, k, c);
        ListsAppend(calls, Visited(keys, k, c), more, Visited(keys, Snoc(k, c), 256));
      }
    }

    /** Before the first child a walk has met the node itself, and after the last one everything. */
    lemma WalkEnds(k: Key)
      requires Valid() && k in tree.at
      ensures var n := tree.nodes[tree.at[k]];
              && Lists(if n.val != 0 then [k] else [], Visited(Bag().Keys, k, n.min))
              && Visited(Bag().Keys, k, n.min + n.count) == Visited(Bag().Keys, k, 256)
    {
      var n, keys := tree.nodes[tree.at[k]], Bag().Keys;
      VisitSelf(keys, k);
      VisitEmpty(tree.nodes, tree.at, tree.path, keys, k, 0, n.min);
      VisitEmpty(tree.nodes, tree.at, tree.path, keys, k, n.min + n.count, 256);
    }

    /**
     Calls back with every key stored below the node of `k`, whose bytes the buffer starts with.
     The buffer is shared by the whole walk and reallocated, up or down, as the depth requires.
     */
    method ApplyAt(p: Ptr, ghost k: Key, buff: Key, size: nat, maxSize: nat)
      returns (calls: seq<Key>, buff': Key)
      requires Valid() && tree.IsAt(k, p)
      requires |k| == size <= |buff| && maxSize <= |buff| && buff[..size] == k
      ensures Lists(calls, Visited(Bag().Keys, k, 256))
      ensures maxSize <= |buff'| && size < |buff'| && buff'[..size] == k
      decreases Below(tree.at, k), 1
    {
      hide Good;
      NodeOf(tree.nodes, tree.at, tree.path, 0, {}, {}, k);
      var n, max := tree.nodes[p], maxSize;
      calls, buff' := [], buff;
      if n.val != 0 {
        calls := [buff'[..size]];
      }
      if size >= max {
        max := size + 256;
        buff' := Realloc(buff', max);
      }
      WalkEnds(k);
      for c := 0 to n.count
        invariant max <= |buff'| && size < max && buff'[..size] == k
        invariant Lists(calls, Visited(Bag().Keys, k, n.min + c))
      {
        var more;
        more, buff' := ApplyChild(p, k, c, buff', size, max);
        WalkChild(k, n.min + c, calls, more);
        calls := calls + more;
      }
    }

    /** The part of the walk that visits the child at index `c` of the node of `k`. */
    method ApplyChild(p: Ptr, ghost k: Key, c: nat, buff: Key, size: nat, maxSize: nat)
      returns (calls: seq<Key>, buff': Key)
      requires Valid() && tree.IsAt(k, p) && c < tree.nodes[p].count
      requires |k| == size < maxSize <= |buff| && buff[..size] == k
      ensures if ChildAt(tree.at, Snoc(k, tree.nodes[p].min + c)) == NULL then calls == []
              else Lists(calls, Visited(Bag().Keys, Snoc(k, tree.nodes[p].min + c), 256))
      ensures maxSize <= |buff'| && buff'[..size] == k
      decreases Below(tree.at, k), 0
    {
      hide Good;
      NodeOf(tree.nodes, tree.at, tree.path, 0, {}, {}, k);
      var n := tree.nodes[p];
      calls, buff' := [], buff[size := n.min + c];
      SnocPrefix(buff', k, n.min + c);
      var child := if n.count == 1 then n.next.node else n.next.table[c];
      assert child == Slot(n, n.min + c);
      if child != NULL {
        BelowShrinks(tree.at, k, n.min + c);
        calls, buff' := ApplyAt(child, Snoc(k, n.min + c), buff', size + 1, maxSize);
        SnocPrefix(buff', k, n.min + c);
      }
    }

    /** Calls back once with every stored key, whatever its number of copies. */
    method Apply() returns (calls: seq<Key>)
      requires Valid()
      ensures Lists(calls, Bag().Keys)
    {
      var buff;
      calls, buff := ApplyAt(tree.root, [], [], 0, 0);
      assert Visited(Bag().Keys, [], 256) == Bag().Keys;
    }
  }
}
