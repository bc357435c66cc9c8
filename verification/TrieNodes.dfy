/**
 The node layout that `trie_t` and `mtrie_t` share, and the invariant that ties a store of such
 nodes to a set of byte strings.

 A node holds a payload, and a table of children for the bytes `min .. min + count - 1`. The
 table is absent (`count == 0`), a single pointer (`count == 1`) or an array. Nodes live in an
 explicit store indexed by pointer, so that `delete` is the removal of an entry and a read
 through a dangling pointer is a proof failure.
 */
module TrieNodes {
  import opened Bytes

  type Ptr = nat

  const NULL: Ptr := 0

  /** The `_next` union; which member is in use follows from `count`. */
  datatype Next = One(node: Ptr) | Many(table: seq<Ptr>)

  datatype Node<+P> = Node(val: P, min: Byte, count: nat, live: nat, next: Next)

  /** A freshly constructed node. */
  function NewNode<P>(val: P): Node<P> {
    Node(val, 0, 0, 0, One(NULL))
  }

  type Store<+P> = map<Ptr, Node<P>>

  // ---------------------------------------------------------------- one node

  predicate InRange<P>(n: Node<P>, c: Byte) {
    n.min <= c < n.min + n.count
  }

  /** The number of children in a table. */
  ghost function CountLive(t: seq<Ptr>): nat {
    if t == [] then 0 else CountLive(t[..|t| - 1]) + (if t[|t| - 1] != NULL then 1 else 0)
  }

  /** The union is read the way `count` says, and `live` counts the children. */
  ghost predicate WellFormed<P>(n: Node<P>) {
    && n.min + n.count <= 256
    && (n.count == 0 ==> n.live == 0)
    && (n.count == 1 ==> n.next.One? && n.live == if n.next.node == NULL then 0 else 1)
    && (n.count > 1 ==> n.next.Many? && |n.next.table| == n.count && n.live == CountLive(n.next.table))
  }

  /** A table starts and ends with a child; a single slot is filled. */
  ghost predicate Compact<P>(n: Node<P>)
    requires WellFormed(n)
  {
    && (n.count == 1 ==> n.next.node != NULL)
    && (n.count > 1 ==> n.next.table[0] != NULL && n.next.table[n.count - 1] != NULL)
  }

  /** The child for byte `c`, or NULL. */
  function Slot<P>(n: Node<P>, c: Byte): Ptr
    requires WellFormed(n)
  {
    if !InRange(n, c) then NULL
    else if n.count == 1 then n.next.node
    else n.next.table[c - n.min]
  }

  lemma {:induction false} CountLiveUpdate(t: seq<Ptr>, i: nat, p: Ptr)
    requires i < |t|
    ensures CountLive(t[i := p]) ==
            CountLive(t) - (if t[i] != NULL then 1 else 0) + (if p != NULL then 1 else 0)
  {
    var u := t[i := p];
    if i == |t| - 1 {
      assert u[..|u| - 1] == t[..|t| - 1];
    } else {
      CountLiveUpdate(t[..|t| - 1], i, p);
      assert u[..|u| - 1] == t[..|t| - 1][i := p];
    }
  }

  lemma {:induction false} CountLiveConcat(a: seq<Ptr>, b: seq<Ptr>)
    ensures CountLive(a + b) == CountLive(a) + CountLive(b)
  {
    if b == [] {
      assert a + b == a;
    } else {
      CountLiveConcat(a, b[..|b| - 1]);
      assert (a + b)[..|a + b| - 1] == a + b[..|b| - 1];
    }
  }

  lemma {:induction false} CountLiveZero(t: seq<Ptr>)
    ensures CountLive(t) == 0 <==> forall i :: 0 <= i < |t| ==> t[i] == NULL
  {
    if t != [] {
      var s := t[..|t| - 1];
      CountLiveZero(s);
      assert forall i :: 0 <= i < |s| ==> s[i] == t[i];
    }
  }

  /** A table with a child at `i` has at least one live entry, and more exactly when it has another child. */
  lemma CountLiveOne(t: seq<Ptr>, i: nat)
    requires i < |t| && t[i] != NULL
    ensures CountLive(t) >= 1
    ensures CountLive(t) == 1 <==> forall j :: 0 <= j < |t| && j != i ==> t[j] == NULL
  {
    CountLiveUpdate(t, i, NULL);
    CountLiveZero(t[i := NULL]);
    assert forall j :: 0 <= j < |t| && j != i ==> t[j] == t[i := NULL][j];
  }

  /** Cutting off entries that are all NULL does not change the count. */
  lemma CountLiveSlice(t: seq<Ptr>, lo: nat, hi: nat)
    requires lo <= hi <= |t|
    requires forall i :: 0 <= i < lo || hi <= i < |t| ==> t[i] == NULL
    ensures CountLive(t[lo..hi]) == CountLive(t)
  {
    assert t == t[..lo] + t[lo..hi] + t[hi..];
    CountLiveConcat(t[..lo] + t[lo..hi], t[hi..]);
    CountLiveConcat(t[..lo], t[lo..hi]);
    CountLiveZero(t[..lo]);
    CountLiveZero(t[hi..]);
  }

  /** A node has no live child exactly when every slot is NULL. */
  lemma LiveZero<P>(n: Node<P>)
    requires WellFormed(n)
    ensures n.live == 0 <==> forall c: Byte :: Slot(n, c) == NULL
  {
    if n.count == 1 {
      assert Slot(n, n.min) == n.next.node;
    } else if n.count > 1 {
      CountLiveZero(n.next.table);
      if n.live > 0 {
        var i :| 0 <= i < n.count && n.next.table[i] != NULL;
        assert Slot(n, n.min + i) == n.next.table[i];
      } else {
        forall c: Byte ensures Slot(n, c) == NULL { }
      }
    }
  }

  /** Turns a single slot into a table that reaches from its byte to `c`. */
  function GrowSingle<P>(n: Node<P>, c: Byte): (g: Node<P>)
    requires WellFormed(n) && Compact(n) && n.count == 1 && c != n.min
    ensures WellFormed(g) && g.count > 1 && g.val == n.val && g.live == n.live
    ensures (c == g.min && n.min == g.min + g.count - 1) || (n.min == g.min && c == g.min + g.count - 1)
    ensures forall d: Byte :: Slot(g, d) == Slot(n, d)
  {
    var count := (if n.min < c then c - n.min else n.min - c) + 1;
    var min := if n.min < c then n.min else c;
    var nulls := seq(count, _ => NULL);
    assert CountLive(nulls[n.min - min := n.next.node]) == 1 by {
      CountLiveZero(nulls);
      CountLiveUpdate(nulls, n.min - min, n.next.node);
    }
    n.(min := min, count := count, next := Many(nulls[n.min - min := n.next.node]))
  }

  /** Lengthens a table upwards so that it ends at `c`. */
  function GrowUp<P>(n: Node<P>, c: Byte): (g: Node<P>)
    requires WellFormed(n) && n.count > 1 && n.min + n.count <= c
    ensures WellFormed(g) && g.val == n.val && g.live == n.live
    ensures g.min == n.min && c == g.min + g.count - 1
    ensures forall d: Byte :: Slot(g, d) == Slot(n, d)
  {
    var nulls := seq(c - n.min + 1 - n.count, _ => NULL);
    assert CountLive(n.next.table + nulls) == n.live by {
      CountLiveZero(nulls);
      CountLiveConcat(n.next.table, nulls);
    }
    n.(count := c - n.min + 1, next := Many(n.next.table + nulls))
  }

  /** Lengthens a table downwards so that it starts at `c`. */
  function GrowDown<P>(n: Node<P>, c: Byte): (g: Node<P>)
    requires WellFormed(n) && n.count > 1 && c < n.min
    ensures WellFormed(g) && g.val == n.val && g.live == n.live
    ensures g.min == c && g.min + g.count == n.min + n.count
    ensures forall d: Byte :: Slot(g, d) == Slot(n, d)
  {
    var nulls := seq(n.min - c, _ => NULL);
    assert CountLive(nulls + n.next.table) == n.live by {
      CountLiveZero(nulls);
      CountLiveConcat(nulls, n.next.table);
    }
    n.(min := c, count := n.min + n.count - c, next := Many(nulls + n.next.table))
  }

  /**
   Makes room for byte `c`, which is outside the range the node handles. No child moves to
   another byte, and the room made is at an end of the range.
   */
  function Grow<P>(n: Node<P>, c: Byte): (g: Node<P>)
    requires WellFormed(n) && Compact(n) && !InRange(n, c)
    ensures WellFormed(g) && InRange(g, c)
    ensures g.val == n.val && g.live == n.live
    ensures forall d: Byte :: Slot(g, d) == Slot(n, d)
    ensures g.count > 1 ==> c == g.min || Slot(g, g.min) != NULL
    ensures g.count > 1 ==> c == g.min + g.count - 1 || Slot(g, g.min + g.count - 1) != NULL
  {
    if n.count == 0 then n.(min := c, count := 1, next := One(NULL))
    else if n.count == 1 then GrowSingle(n, c)
    else if n.min < c then GrowUp(n, c)
    else GrowDown(n, c)
  }

  /** Stores a new child in an empty slot and counts it. */
  function Fill<P>(n: Node<P>, c: Byte, p: Ptr): (f: Node<P>)
    requires WellFormed(n) && InRange(n, c) && Slot(n, c) == NULL && p != NULL
    ensures WellFormed(f) && f.val == n.val && f.live == n.live + 1
    ensures f.min == n.min && f.count == n.count
    ensures forall d: Byte :: Slot(f, d) == if d == c then p else Slot(n, d)
  {
    if n.count == 1 then
      n.(next := One(p), live := n.live + 1)
    else
      assert CountLive(n.next.table[c - n.min := p]) == n.live + 1 by {
        CountLiveUpdate(n.next.table, c - n.min, p);
      }
      n.(next := Many(n.next.table[c - n.min := p]), live := n.live + 1)
  }

  /** A node with a new child for byte `c`, after making room for it where there is none. */
  function Extend<P>(n: Node<P>, c: Byte, p: Ptr): (f: Node<P>)
    requires WellFormed(n) && Compact(n) && Slot(n, c) == NULL && p != NULL
    ensures WellFormed(f) && Compact(f) && f.val == n.val && f.live == n.live + 1
    ensures forall d: Byte :: Slot(f, d) == if d == c then p else Slot(n, d)
  {
    var g := if c < n.min || c >= n.min + n.count then Grow(n, c) else n;
    var f := Fill(g, c, p);
    assert f.count > 1 ==>
             f.next.table[0] == Slot(f, f.min) && f.next.table[f.count - 1] == Slot(f, f.min + f.count - 1);
    f
  }

  /** Empties the slot of a deleted child of a table. */
  function Hole<P>(n: Node<P>, c: Byte): (h: Node<P>)
    requires WellFormed(n) && n.count > 1 && Slot(n, c) != NULL
    ensures WellFormed(h) && h.val == n.val && h.live == n.live - 1
    ensures h.min == n.min && h.count == n.count
    ensures forall d: Byte :: Slot(h, d) == if d == c then NULL else Slot(n, d)
  {
    assert n.live >= 1 && CountLive(n.next.table[c - n.min := NULL]) == n.live - 1 by {
      CountLiveUpdate(n.next.table, c - n.min, NULL);
    }
    n.(next := Many(n.next.table[c - n.min := NULL]), live := n.live - 1)
  }

  /** Compacts a table "from the left": the first child becomes the new minimum. */
  method ShrinkLeft<P>(n: Node<P>) returns (m: Node<P>)
    requires WellFormed(n) && n.count > 1 && n.live > 1
    requires n.next.table[0] == NULL && n.next.table[n.count - 1] != NULL
    ensures WellFormed(m) && Compact(m) && m.val == n.val && m.live == n.live
    ensures forall d: Byte :: Slot(m, d) == Slot(n, d)
  {
    var t := n.next.table;
    var i := 1;
    while i < n.count && t[i] == NULL
      invariant 1 <= i <= n.count
      invariant forall j :: 0 <= j < i ==> t[j] == NULL
    {
      i := i + 1;
    }
    assert i < n.count;
    CountLiveOne(t, n.count - 1);
    CountLiveSlice(t, i, n.count);
    assert i < n.count - 1;
    m := n.(min := n.min + i, count := n.count - i, next := Many(t[i..n.count]));
  }

  /** Compacts a table "from the right": the last child becomes the new maximum. */
  method ShrinkRight<P>(n: Node<P>) returns (m: Node<P>)
    requires WellFormed(n) && n.count > 1 && n.live > 1
    requires n.next.table[0] != NULL && n.next.table[n.count - 1] == NULL
    ensures WellFormed(m) && Compact(m) && m.val == n.val && m.live == n.live
    ensures forall d: Byte :: Slot(m, d) == Slot(n, d)
  {
    var t := n.next.table;
    var i := 1;
    while i < n.count && t[n.count - 1 - i] == NULL
      invariant 1 <= i <= n.count
      invariant forall j :: n.count - i <= j < n.count ==> t[j] == NULL
    {
      i := i + 1;
    }
    assert i < n.count;
    CountLiveOne(t, 0);
    CountLiveSlice(t, 0, n.count - i);
    assert i < n.count - 1;
    m := n.(count := n.count - i, next := Many(t[..n.count - i]));
  }

  /** Keeps the part of a table between two of its children, when there is no child outside it. */
  function Slice<P>(n: Node<P>, lo: nat, hi: nat): (m: Node<P>)
    requires WellFormed(n) && n.count > 1 && lo < hi < n.count
    requires n.next.table[lo] != NULL && n.next.table[hi] != NULL
    requires forall i :: 0 <= i < lo || hi < i < n.count ==> n.next.table[i] == NULL
    ensures WellFormed(m) && Compact(m) && m.val == n.val && m.live == n.live
    ensures forall d: Byte :: Slot(m, d) == Slot(n, d)
  {
    assert CountLive(n.next.table[lo..hi + 1]) == n.live by {
      CountLiveSlice(n.next.table, lo, hi + 1);
    }
    n.(min := n.min + lo, count := hi - lo + 1, next := Many(n.next.table[lo..hi + 1]))
  }

  /** Switches a table with one child left, at index `i`, to the single-slot form. */
  function Single<P>(n: Node<P>, i: nat): (m: Node<P>)
    requires WellFormed(n) && n.count > 1 && n.live == 1
    requires i < n.count && n.next.table[i] != NULL
    ensures WellFormed(m) && Compact(m) && m.val == n.val && m.live == n.live
    ensures forall d: Byte :: Slot(m, d) == Slot(n, d)
  {
    assert forall j :: 0 <= j < n.count && j != i ==> n.next.table[j] == NULL by {
      CountLiveOne(n.next.table, i);
    }
    n.(min := n.min + i, count := 1, next := One(n.next.table[i]))
  }

  // ------------------------------------------------------------- whole store

  ghost function ChildAt(at: map<Key, Ptr>, k: Key): Ptr {
    if k in at then at[k] else NULL
  }

  /** Nodes and keys correspond one to one. */
  ghost predicate Indexed<P>(s: Store<P>, at: map<Key, Ptr>, path: map<Ptr, Key>) {
    && [] in at
    && NULL !in s
    && s.Keys == path.Keys
    && (forall p :: p in s ==> path[p] in at && at[path[p]] == p)
    && (forall k :: k in at ==> at[k] in s && path[at[k]] == k && WellFormed(s[at[k]]))
  }

  /** The slot for byte `c` of the node of `k` points to the node of `k` followed by `c`. */
  ghost predicate Linked<P>(s: Store<P>, at: map<Key, Ptr>, path: map<Ptr, Key>)
    requires Indexed(s, at, path)
  {
    forall k, c: Byte :: k in at ==> Slot(s[at[k]], c) == ChildAt(at, Snoc(k, c))
  }

  ghost predicate PrefixClosed(at: map<Key, Ptr>) {
    forall k, c: Byte :: Snoc(k, c) in at ==> k in at
  }

  /**
   The store is exactly the tree of the keys in `at`. There is no sharing, no cycle, no dangling
   pointer and no node that the root does not reach.
   */
  ghost predicate Shape<P>(s: Store<P>, at: map<Key, Ptr>, path: map<Ptr, Key>) {
    Indexed(s, at, path) && Linked(s, at, path) && PrefixClosed(at)
  }

  ghost predicate Redundant<P>(n: Node<P>, zero: P) {
    n.val == zero && n.live == 0
  }

  /**
   A store in good order, but for the keys in `loose`, whose tables need not be compact, and the
   keys in `bare`, whose nodes may be redundant. The root may always be redundant.
   */
  ghost predicate Good<P>(s: Store<P>, at: map<Key, Ptr>, path: map<Ptr, Key>, zero: P,
                          loose: set<Key>, bare: set<Key>)
  {
    && Shape(s, at, path)
    && (forall k :: k in at && k !in loose ==> Compact(s[at[k]]))
    && (forall k :: k in at && k != [] && k !in bare ==> !Redundant(s[at[k]], zero))
  }

  /** What is known of the node of one key. */
  lemma NodeOf<P>(s: Store<P>, at: map<Key, Ptr>, path: map<Ptr, Key>, zero: P,
                  loose: set<Key>, bare: set<Key>, k: Key)
    requires Good(s, at, path, zero, loose, bare) && k in at
    ensures Shape(s, at, path) && NULL !in s && at[k] in s && WellFormed(s[at[k]])
    ensures forall c: Byte :: Slot(s[at[k]], c) == ChildAt(at, Snoc(k, c))
    ensures k !in loose ==> Compact(s[at[k]])
  {
  }

  lemma Unchanged<P>(s: Store<P>, at: map<Key, Ptr>, path: map<Ptr, Key>, zero: P,
                     loose: set<Key>, bare: set<Key>, k: Key)
    requires Good(s, at, path, zero, loose, bare)
    ensures Others(s, at, s, at, k)
  {
  }

  /** A table in `loose` that turns out to be compact does not belong there. */
  lemma Tighten<P>(s: Store<P>, at: map<Key, Ptr>, path: map<Ptr, Key>, zero: P,
                   loose: set<Key>, bare: set<Key>, k: Key, loose': set<Key>)
    requires Good(s, at, path, zero, loose, bare) && k in at && Compact(s[at[k]])
    requires forall q :: q in loose ==> q == k || q in loose'
    ensures Good(s, at, path, zero, loose', bare)
  {
  }

  /** The parent of a node that exists. */
  lemma ParentOf<P>(s: Store<P>, at: map<Key, Ptr>, path: map<Ptr, Key>, k: Key, c: Byte)
    requires Shape(s, at, path) && Snoc(k, c) in at
    ensures k in at
  {
  }

  /** A node with a child is not redundant. */
  lemma HasChild<P>(s: Store<P>, at: map<Key, Ptr>, path: map<Ptr, Key>, zero: P, loose: set<Key>,
                    k: Key, c: Byte)
    requires Good(s, at, path, zero, loose, {k}) && k in at && Slot(s[at[k]], c) != NULL
    ensures Good(s, at, path, zero, loose, {})
    ensures Snoc(k, c) in at && at[Snoc(k, c)] == Slot(s[at[k]], c)
  {
    assert ChildAt(at, Snoc(k, c)) == Slot(s[at[k]], c);
    LiveZero(s[at[k]]);
  }

  /** A node in `bare` that turns out not to be redundant does not belong there. */
  lemma NotRedundant<P>(s: Store<P>, at: map<Key, Ptr>, path: map<Ptr, Key>, zero: P, loose: set<Key>,
                        bare: set<Key>, k: Key, bare': set<Key>)
    requires Good(s, at, path, zero, loose, bare) && k in at && !Redundant(s[at[k]], zero)
    requires forall q :: q in bare ==> q == k || q in bare'
    ensures Good(s, at, path, zero, loose, bare')
  {
  }

  lemma Weaken<P>(s: Store<P>, at: map<Key, Ptr>, path: map<Ptr, Key>, zero: P,
                  loose: set<Key>, bare: set<Key>, loose': set<Key>, bare': set<Key>)
    requires Good(s, at, path, zero, loose, bare)
    requires forall k :: k in at && k in loose ==> k in loose'
    requires forall k :: k in at && k in bare && k != [] ==> k in bare'
    ensures Good(s, at, path, zero, loose', bare')
  {
  }

  /** The payload stored for a key. */
  ghost function Get<P>(s: Store<P>, at: map<Key, Ptr>, zero: P, k: Key): P {
    if k in at && at[k] in s then s[at[k]].val else zero
  }

  ghost predicate SameVals<P>(s: Store<P>, at: map<Key, Ptr>, t: Store<P>, at': map<Key, Ptr>, zero: P) {
    forall q :: Get(t, at', zero, q) == Get(s, at, zero, q)
  }

  /** Two stores hold the same payloads, but for `v` at `k` in the second. */
  ghost predicate OneVal<P>(s: Store<P>, at: map<Key, Ptr>, t: Store<P>, at': map<Key, Ptr>, zero: P, k: Key, v: P) {
    forall q :: Get(t, at', zero, q) == if q == k then v else Get(s, at, zero, q)
  }

  lemma OneThenSame<P>(s: Store<P>, at: map<Key, Ptr>, t: Store<P>, at': map<Key, Ptr>,
                       u: Store<P>, at'': map<Key, Ptr>, zero: P, k: Key, v: P)
    requires OneVal(s, at, t, at', zero, k, v) && SameVals(t, at', u, at'', zero)
    ensures OneVal(s, at, u, at'', zero, k, v)
  {
  }

  /** The nodes of the second store are those of the first, but for that of `k`. */
  ghost predicate Others<P>(s: Store<P>, at: map<Key, Ptr>, t: Store<P>, at': map<Key, Ptr>, k: Key) {
    forall q :: q in at' && q != k ==>
                  q in at && at'[q] == at[q] && at[q] in s && at[q] in t && t[at[q]] == s[at[q]]
  }

  /** What a store holds: the keys whose payload is not `zero`, with their payloads. */
  ghost function Contents<P>(s: Store<P>, at: map<Key, Ptr>, zero: P): map<Key, P> {
    map k | k in at && at[k] in s && s[at[k]].val != zero :: s[at[k]].val
  }

  lemma GetContents<P>(s: Store<P>, at: map<Key, Ptr>, zero: P, k: Key)
    ensures Get(s, at, zero, k) == if k in Contents(s, at, zero) then Contents(s, at, zero)[k] else zero
  {
  }

  lemma {:induction false} PrefixIn<P>(s: Store<P>, at: map<Key, Ptr>, path: map<Ptr, Key>, k: Key, q: Key)
    requires Shape(s, at, path) && k in at && q <= k
    ensures q in at
    decreases |k|
  {
    if q != k {
      assert k == Snoc(k[..|k| - 1], k[|k| - 1]);
      PrefixIn(s, at, path, k[..|k| - 1], q);
    }
  }

  /** Below an empty slot there is nothing. */
  lemma NothingBelow<P>(s: Store<P>, at: map<Key, Ptr>, path: map<Ptr, Key>, k: Key, c: Byte, q: Key)
    requires Shape(s, at, path) && k in at && Slot(s[at[k]], c) == NULL && Snoc(k, c) <= q
    ensures q !in at && Snoc(k, c) !in at
  {
    assert ChildAt(at, Snoc(k, c)) == NULL;
    if q in at {
      PrefixIn(s, at, path, q, Snoc(k, c));
    }
  }

  /** Rewriting one node without touching its children keeps the shape. */
  lemma RewriteNode<P>(s: Store<P>, at: map<Key, Ptr>, path: map<Ptr, Key>, k: Key, n: Node<P>)
    requires Shape(s, at, path) && k in at
    requires WellFormed(n) && forall c: Byte :: Slot(n, c) == Slot(s[at[k]], c)
    ensures Shape(s[at[k] := n], at, path)
  {
  }

  /** Rewriting one payload; only the node written to can become redundant. */
  lemma RewriteVal<P>(s: Store<P>, at: map<Key, Ptr>, path: map<Ptr, Key>, zero: P,
                      loose: set<Key>, bare: set<Key>, k: Key, v: P, bare': set<Key>)
    requires Good(s, at, path, zero, loose, bare) && k in at
    requires v != zero || k in bare' || k == []
    requires forall q :: q in bare ==> q == k || q in bare'
    ensures var t := s[at[k] := s[at[k]].(val := v)];
            && Good(t, at, path, zero, loose, bare')
            && OneVal(s, at, t, at, zero, k, v) && Others(s, at, t, at, k)
  {
    var t := s[at[k] := s[at[k]].(val := v)];
    RewriteNode(s, at, path, k, s[at[k]].(val := v));
    assert forall q :: q in at ==> t[at[q]] == if q == k then s[at[k]].(val := v) else s[at[q]];
  }

  /** Rewriting the table of one node to a compact one with the same children. */
  lemma RewriteTable<P>(s: Store<P>, at: map<Key, Ptr>, path: map<Ptr, Key>, zero: P,
                        loose: set<Key>, bare: set<Key>, k: Key, n: Node<P>, loose': set<Key>)
    requires Good(s, at, path, zero, loose, bare) && k in at
    requires WellFormed(n) && Compact(n) && n.val == s[at[k]].val && n.live == s[at[k]].live
    requires forall c: Byte :: Slot(n, c) == Slot(s[at[k]], c)
    requires forall q :: q in loose ==> q == k || q in loose'
    ensures var t := s[at[k] := n];
            && Good(t, at, path, zero, loose', bare)
            && SameVals(s, at, t, at, zero) && Others(s, at, t, at, k)
  {
  }

  /** Hanging a new childless node below `k`, with the parent rewritten to point to it. */
  lemma AddNode<P>(s: Store<P>, at: map<Key, Ptr>, path: map<Ptr, Key>, k: Key, c: Byte, p: Ptr,
                   n: Node<P>, m: Node<P>)
    requires Shape(s, at, path) && k in at && p !in s && p != NULL
    requires WellFormed(n) && Slot(s[at[k]], c) == NULL
    requires forall d: Byte :: Slot(n, d) == if d == c then p else Slot(s[at[k]], d)
    requires WellFormed(m) && m.live == 0
    ensures Shape(s[p := m][at[k] := n], at[Snoc(k, c) := p], path[p := Snoc(k, c)])
    ensures Snoc(k, c) !in at
  {
    var j := Snoc(k, c);
    var t, at', path' := s[p := m][at[k] := n], at[j := p], path[p := j];
    NothingBelow(s, at, path, k, c, j);
    assert Indexed(t, at', path') by {
      assert forall q :: q in at ==> t[at[q]] == if q == k then n else s[at[q]];
    }
    LiveZero(m);
    forall q, d: Byte | q in at'
      ensures Slot(t[at'[q]], d) == ChildAt(at', Snoc(q, d))
    {
      SnocInjective(q, d, k, c);
      if q == j {
        NothingBelow(s, at, path, k, c, Snoc(q, d));
      } else {
        assert ChildAt(at, Snoc(q, d)) == Slot(s[at[q]], d);
      }
    }
    forall q, d: Byte | Snoc(q, d) in at'
      ensures q in at'
    {
      SnocInjective(q, d, k, c);
    }
  }

  /** The same for a store in good order: only the new node is redundant, and no payload changes. */
  lemma AddChild<P>(s: Store<P>, at: map<Key, Ptr>, path: map<Ptr, Key>, zero: P,
                    k: Key, c: Byte, p: Ptr, n: Node<P>)
    requires Good(s, at, path, zero, {}, {k}) && k in at && p !in s && p != NULL
    requires WellFormed(n) && Compact(n) && Slot(s[at[k]], c) == NULL
    requires n.val == s[at[k]].val && n.live == s[at[k]].live + 1
    requires forall d: Byte :: Slot(n, d) == if d == c then p else Slot(s[at[k]], d)
    ensures var t, at', path' := s[p := NewNode(zero)][at[k] := n], at[Snoc(k, c) := p], path[p := Snoc(k, c)];
            && Good(t, at', path', zero, {}, {Snoc(k, c)})
            && at'[[]] == at[[]]
            && SameVals(s, at, t, at', zero)
  {
    AddNode(s, at, path, k, c, p, n, NewNode(zero));
    var t := s[p := NewNode(zero)][at[k] := n];
    assert forall q :: q in at ==> t[at[q]] == if q == k then n else s[at[q]];
  }

  /** Deleting a childless node below `k`, with the parent rewritten not to point to it. */
  lemma DropNode<P>(s: Store<P>, at: map<Key, Ptr>, path: map<Ptr, Key>, k: Key, c: Byte, n: Node<P>)
    requires Shape(s, at, path) && k in at && Snoc(k, c) in at && s[at[Snoc(k, c)]].live == 0
    requires WellFormed(n)
    requires forall d: Byte :: Slot(n, d) == if d == c then NULL else Slot(s[at[k]], d)
    ensures at[Snoc(k, c)] != at[k]
    ensures Shape((s - {at[Snoc(k, c)]})[at[k] := n], at - {Snoc(k, c)}, path - {at[Snoc(k, c)]})
  {
    var j := Snoc(k, c);
    var p := at[j];
    var t, at', path' := (s - {p})[at[k] := n], at - {j}, path - {p};
    DropIndexed(s, at, path, k, c, n);
    assert forall d: Byte :: Snoc(j, d) !in at by {
      LiveZero(s[p]);
      assert forall d: Byte :: Slot(s[p], d) == ChildAt(at, Snoc(j, d));
    }
    hide WellFormed, Indexed;
    forall q, d: Byte | q in at' ensures Slot(t[at'[q]], d) == ChildAt(at', Snoc(q, d)) {
      SnocInjective(q, d, k, c);
      assert ChildAt(at, Snoc(q, d)) == Slot(s[at[q]], d);
    }
  }

  lemma DropIndexed<P>(s: Store<P>, at: map<Key, Ptr>, path: map<Ptr, Key>, k: Key, c: Byte, n: Node<P>)
    requires Indexed(s, at, path) && k in at && Snoc(k, c) in at && WellFormed(n)
    ensures var p := at[Snoc(k, c)];
      var t, at' := (s - {p})[at[k] := n], at - {Snoc(k, c)};
      && p != at[k] && Indexed(t, at', path - {p})
      && forall q :: q in at' ==> at[q] != p && at[q] in s && t[at[q]] == if q == k then n else s[at[q]]
  {
    hide WellFormed;
    assert path[at[k]] == k && path[at[Snoc(k, c)]] == Snoc(k, c);
  }

  /** The same for a store in good order, when the child deleted is redundant: no payload changes. */
  lemma DropChild<P>(s: Store<P>, at: map<Key, Ptr>, path: map<Ptr, Key>, zero: P,
                     loose: set<Key>, bare: set<Key>, k: Key, c: Byte, n: Node<P>, bare': set<Key>)
    requires Good(s, at, path, zero, loose, bare) && k in at && Snoc(k, c) in at
    requires Redundant(s[at[Snoc(k, c)]], zero)
    requires WellFormed(n) && (k in loose || Compact(n)) && n.val == s[at[k]].val
    requires forall d: Byte :: Slot(n, d) == if d == c then NULL else Slot(s[at[k]], d)
    requires k in bare' && forall q :: q in bare ==> q == Snoc(k, c) || q in bare'
    ensures var p := at[Snoc(k, c)];
            var t, at', path' := (s - {p})[at[k] := n], at - {Snoc(k, c)}, path - {p};
            && Good(t, at', path', zero, loose, bare')
            && k in at' && at'[k] == at[k] && at'[[]] == at[[]]
            && SameVals(s, at, t, at', zero) && Others(s, at, t, at', k)
  {
    DropNode(s, at, path, k, c, n);
    DropPayloads(s, at, path, zero, k, c, n);
    hide SameVals, Others, Shape;
  }

  lemma DropPayloads<P>(s: Store<P>, at: map<Key, Ptr>, path: map<Ptr, Key>, zero: P, k: Key, c: Byte, n: Node<P>)
    requires Shape(s, at, path) && k in at && Snoc(k, c) in at && at[Snoc(k, c)] != at[k]
    requires s[at[Snoc(k, c)]].val == zero && n.val == s[at[k]].val
    ensures var p := at[Snoc(k, c)];
            var t, at' := (s - {p})[at[k] := n], at - {Snoc(k, c)};
            && SameVals(s, at, t, at', zero) && Others(s, at, t, at', k)
            && forall q :: q in at' ==> at'[q] == at[q] && at[q] in t && t[at[q]] == if q == k then n else s[at[q]]
  {
    var p := at[Snoc(k, c)];
    var t := (s - {p})[at[k] := n];
    assert forall q :: q in at && q != Snoc(k, c) ==> at[q] != p && t[at[q]] == if q == k then n else s[at[q]];
  }

  /** The keys of the subtree that hangs from the node of `k`. */
  ghost function Below(at: map<Key, Ptr>, k: Key): set<Key> {
    set q | q in at && k <= q
  }

  lemma BelowShrinks(at: map<Key, Ptr>, k: Key, c: Byte)
    requires k in at
    ensures Below(at, Snoc(k, c)) < Below(at, k)
  {
    assert k in Below(at, k) && k !in Below(at, Snoc(k, c));
  }

  /** The keys at or below `k` that a walk over the children in byte order has met before byte `d`. */
  ghost function Visited(keys: set<Key>, k: Key, d: int): set<Key> {
    set q | q in keys && k <= q && (|q| == |k| || q[|k|] < d)
  }

  lemma VisitSelf(keys: set<Key>, k: Key)
    ensures Visited(keys, k, 0) == if k in keys then {k} else {}
  {
    forall q | q in Visited(keys, k, 0) ensures q == k {
      assert q[..|k|] == k;
    }
  }

  /** Children that do not exist hold nothing. */
  lemma VisitEmpty<P>(s: Store<P>, at: map<Key, Ptr>, path: map<Ptr, Key>, keys: set<Key>, k: Key, d: int, e: int)
    requires Shape(s, at, path) && k in at && keys <= at.Keys
    requires d <= e && forall c: Byte :: d <= c < e ==> Slot(s[at[k]], c) == NULL
    ensures Visited(keys, k, e) == Visited(keys, k, d)
  {
    forall q | q in Visited(keys, k, e)
      ensures q in Visited(keys, k, d)
    {
      if |q| != |k| && d <= q[|k|] {
        NothingBelow(s, at, path, k, q[|k|], q);
      }
    }
  }

  /** Visiting the child for byte `c` adds what is stored below it, all of it new. */
  lemma VisitChild(keys: set<Key>, k: Key, c: Byte)
    ensures Visited(keys, k, c + 1) == Visited(keys, k, c) + Visited(keys, Snoc(k, c), 256)
    ensures Visited(keys, k, c) !! Visited(keys, Snoc(k, c), 256)
  {
  }

  // ------------------------------------------------------------ mutable tree

  /** A tree of nodes that is changed in place; `at` and `path` say which key each node stands for. */
  class Tree<P(!new)> {
    var nodes: Store<P>
    var brk: Ptr                    // every address in use is below it
    const root: Ptr := 1
    const zero: P                   // the payload of a node nothing is stored at
    ghost var at: map<Key, Ptr>
    ghost var path: map<Ptr, Key>

    /** The invariant, but for keys whose tables are not compact or whose nodes may be redundant. */
    ghost predicate ValidExcept(loose: set<Key>, bare: set<Key>)
      reads this
    {
      && Good(nodes, at, path, zero, loose, bare)
      && [] in at && at[[]] == root
      && brk != NULL
      && forall p :: p in nodes ==> p < brk
    }

    ghost predicate Valid()
      reads this
    {
      ValidExcept({}, {})
    }

    /** `p` is the address of the node of `k`. */
    ghost predicate IsAt(k: Key, p: Ptr)
      reads this
    {
      k in at && at[k] == p
    }

    constructor (zero: P)
      ensures Valid() && this.zero == zero && forall k :: Get(nodes, at, zero, k) == zero
    {
      this.zero := zero;
      nodes := map[root := NewNode(zero)];
      brk := 2;
      at := map[[] := root];
      path := map[root := []];
      new;
      assert forall c: Byte, k: Key :: Snoc(k, c) != [];
    }

    /** Steps from the node of `k` to its child for byte `c`, creating it when it is missing. */
    method Descend(p: Ptr, ghost k: Key, c: Byte) returns (child: Ptr)
      requires IsAt(k, p) && ValidExcept({}, {k})
      modifies this
      ensures IsAt(Snoc(k, c), child) && ValidExcept({}, {Snoc(k, c)})
      ensures SameVals(old(nodes), old(at), nodes, at, zero)
    {
      hide Good;
      NodeOf(nodes, at, path, zero, {}, {k}, k);
      child := Slot(nodes[p], c);
      if child == NULL {
        child := brk;
        var n := Extend(nodes[p], c, child);
        AddChild(nodes, at, path, zero, k, c, child, n);
        nodes := nodes[child := NewNode(zero)][p := n];
        at, path := at[Snoc(k, c) := child], path[child := Snoc(k, c)];
        brk := brk + 1;
      } else {
        HasChild(nodes, at, path, zero, {}, k, c);
        Weaken(nodes, at, path, zero, {}, {}, {}, {Snoc(k, c)});
      }
    }

    /** Writes a payload; only the node written to can become redundant. */
    method SetVal(p: Ptr, ghost k: Key, v: P, ghost loose: set<Key>, ghost bare: set<Key>, ghost bare': set<Key>)
      requires IsAt(k, p) && ValidExcept(loose, bare) && p in nodes
      requires v != zero || k in bare' || k == []
      requires forall q :: q in bare ==> q == k || q in bare'
      modifies this`nodes
      ensures ValidExcept(loose, bare')
      ensures OneVal(old(nodes), at, nodes, at, zero, k, v)
      ensures Others(old(nodes), at, nodes, at, k) && p in nodes && nodes[p] == old(nodes)[p].(val := v)
    {
      hide Good;
      NodeOf(nodes, at, path, zero, loose, bare, k);
      RewriteVal(nodes, at, path, zero, loose, bare, k, v, bare');
      nodes := nodes[p := nodes[p].(val := v)];
    }

    /** Writes a compact table with the same children. */
    method SetTable(p: Ptr, ghost k: Key, n: Node<P>,
                    ghost loose: set<Key>, ghost bare: set<Key>, ghost loose': set<Key>)
      requires IsAt(k, p) && ValidExcept(loose, bare) && p in nodes && WellFormed(nodes[p])
      requires WellFormed(n) && Compact(n) && n.val == nodes[p].val && n.live == nodes[p].live
      requires forall c: Byte :: Slot(n, c) == Slot(nodes[p], c)
      requires forall q :: q in loose ==> q == k || q in loose'
      modifies this`nodes
      ensures ValidExcept(loose', bare)
      ensures SameVals(old(nodes), old(at), nodes, at, zero)
      ensures Others(old(nodes), at, nodes, at, k) && p in nodes && nodes[p] == n
    {
      hide Good;
      RewriteTable(nodes, at, path, zero, loose, bare, k, n, loose');
      nodes := nodes[p := n];
    }

    /** Deletes the child for byte `c` of the node of `k`, which is redundant; `n` is the node without it. */
    method Unlink(p: Ptr, ghost k: Key, c: Byte, child: Ptr, n: Node<P>,
                  ghost loose: set<Key>, ghost bare: set<Key>, ghost bare': set<Key>)
      requires IsAt(k, p) && ValidExcept(loose, bare) && p in nodes && WellFormed(nodes[p])
      requires IsAt(Snoc(k, c), child) && child in nodes && Redundant(nodes[child], zero)
      requires WellFormed(n) && (k in loose || Compact(n)) && n.val == nodes[p].val
      requires forall d: Byte :: Slot(n, d) == if d == c then NULL else Slot(nodes[p], d)
      requires k in bare' && forall q :: q in bare ==> q == Snoc(k, c) || q in bare'
      modifies this`nodes, this`at, this`path
      ensures IsAt(k, p) && ValidExcept(loose, bare')
      ensures at == old(at) - {Snoc(k, c)}
      ensures SameVals(old(nodes), old(at), nodes, at, zero)
      ensures Others(old(nodes), old(at), nodes, at, k) && p in nodes && nodes[p] == n
    {
      hide Good;
      DropChild(nodes, at, path, zero, loose, bare, k, c, n, bare');
      nodes := (nodes - {child})[p := n];
      at, path := at - {Snoc(k, c)}, path - {child};
    }
  }
}
