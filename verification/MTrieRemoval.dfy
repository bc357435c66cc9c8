/**
 `mtrie_t::rm` by pipe: a depth-first walk of the whole trie on an explicit stack, which takes a
 pipe out of every set, deletes the nodes this makes redundant and compacts the tables on the
 way out.
 */
module MTrieRemoval {
  import opened Bytes
  import opened TrieNodes
  import opened MTries

  /** A frame of the stack. A node with several children is pushed again for each of them. */
  datatype Frame = Frame(node: Ptr, size: nat, child: nat, newMin: Byte, newMax: Byte, processed: bool)

  // ------------------------------------------------------ where the walk is

  /**
   The walk goes through the keys in lexicographic order. `Before(q, tip, e)`: it has dealt with
   `q` when it is at `tip` and has finished the children of `tip` for bytes below `e`. With
   `e == -1` it has not looked at `tip` itself.
   */
  ghost predicate Before(q: Key, tip: Key, e: int) {
    if tip == [] then if q == [] then e >= 0 else q[0] < e
    else if q == [] then true
    else q[0] < tip[0] || (q[0] == tip[0] && Before(q[1..], tip[1..], e))
  }

  lemma {:induction false} BeforeEnter(q: Key, tip: Key)
    ensures Before(q, tip, 0) <==> Before(q, tip, -1) || q == tip
    ensures !Before(tip, tip, -1)
    decreases |tip|
  {
    if tip != [] {
      BeforeEnter(tip[1..], tip[1..]);
      if q != [] && q[0] == tip[0] {
        BeforeEnter(q[1..], tip[1..]);
        assert q == tip <==> q[1..] == tip[1..] by {
          assert q == [q[0]] + q[1..] && tip == [tip[0]] + tip[1..];
        }
      }
    }
  }

  /** Going down to a child, and coming back from one, are not progress in themselves. */
  lemma {:induction false} BeforeChild(q: Key, tip: Key, c: Byte)
    ensures Before(q, Snoc(tip, c), -1) <==> Before(q, tip, c)
    ensures Before(q, Snoc(tip, c), 256) <==> Before(q, tip, c + 1)
    decreases |tip|
  {
    if tip == [] {
      assert Snoc(tip, c)[1..] == [];
    } else {
      assert Snoc(tip, c)[1..] == Snoc(tip[1..], c);
      if q != [] && q[0] == tip[0] {
        BeforeChild(q[1..], tip[1..], c);
      }
    }
  }

  /** What lies between two positions at the same node is what is below the children between them. */
  lemma {:induction false} BeforeSkip(q: Key, tip: Key, d: int, e: int)
    requires 0 <= d <= e
    ensures Before(q, tip, d) ==> Before(q, tip, e)
    ensures Before(q, tip, e) && !Before(q, tip, d) ==> tip <= q && |tip| < |q| && d <= q[|tip|] < e
    decreases |tip|
  {
    if tip != [] && q != [] && q[0] == tip[0] {
      BeforeSkip(q[1..], tip[1..], d, e);
      if tip[1..] <= q[1..] {
        assert q == [q[0]] + q[1..] && tip == [tip[0]] + tip[1..];
      }
    }
  }

  // ----------------------------------------------- what the walk has changed

  /** Whether the callback is made for a set the pipe is taken out of. */
  predicate Fires(v: Pipes, pipe: Pipe, uniq: bool) {
    pipe in AsSet(v) && (!uniq || AsSet(v) == {pipe})
  }

  /** The pipe has left every set dealt with, and nothing else has changed. */
  ghost predicate Swept(s0: Store<Pipes>, at0: map<Key, Ptr>, s: Store<Pipes>, at: map<Key, Ptr>,
                        pipe: Pipe, tip: Key, e: int)
  {
    forall q :: Get(s, at, None, q) ==
                if Before(q, tip, e) then Erase(Get(s0, at0, None, q), pipe) else Get(s0, at0, None, q)
  }

  /** The keys the callback has been made for. */
  ghost function Fired(s0: Store<Pipes>, at0: map<Key, Ptr>, pipe: Pipe, uniq: bool, tip: Key, e: int): set<Key> {
    set q | q in at0 && Before(q, tip, e) && Fires(Get(s0, at0, None, q), pipe, uniq)
  }

  /** The nodes there were at the start that the walk has yet to deal with. */
  ghost function ToDo(at0: map<Key, Ptr>, tip: Key, e: int): set<Key> {
    set q | q in at0 && !Before(q, tip, e)
  }

  /** Moving between positions with nothing in between. */
  lemma Move(s0: Store<Pipes>, at0: map<Key, Ptr>, s: Store<Pipes>, at: map<Key, Ptr>,
             pipe: Pipe, uniq: bool, tip: Key, e: int, tip': Key, e': int)
    requires Swept(s0, at0, s, at, pipe, tip, e)
    requires forall q :: Before(q, tip, e) ==> Before(q, tip', e')
    requires forall q :: Before(q, tip', e') && !Before(q, tip, e) ==> q !in at
    ensures Swept(s0, at0, s, at, pipe, tip', e')
    ensures Fired(s0, at0, pipe, uniq, tip', e') == Fired(s0, at0, pipe, uniq, tip, e)
    ensures ToDo(at0, tip', e') <= ToDo(at0, tip, e)
  {
  }

  lemma MoveDown(s0: Store<Pipes>, at0: map<Key, Ptr>, s: Store<Pipes>, at: map<Key, Ptr>,
                 pipe: Pipe, uniq: bool, tip: Key, c: Byte)
    requires Swept(s0, at0, s, at, pipe, tip, c)
    ensures Swept(s0, at0, s, at, pipe, Snoc(tip, c), -1)
    ensures Fired(s0, at0, pipe, uniq, Snoc(tip, c), -1) == Fired(s0, at0, pipe, uniq, tip, c)
    ensures ToDo(at0, Snoc(tip, c), -1) <= ToDo(at0, tip, c)
  {
    forall q ensures Before(q, Snoc(tip, c), -1) <==> Before(q, tip, c) {
      BeforeChild(q, tip, c);
    }
    Move(s0, at0, s, at, pipe, uniq, tip, c, Snoc(tip, c), -1);
  }

  /** Passing over a child that does not exist. */
  lemma MovePast(s0: Store<Pipes>, at0: map<Key, Ptr>, s: Store<Pipes>, at: map<Key, Ptr>,
                 pipe: Pipe, uniq: bool, tip: Key, c: Byte)
    requires Swept(s0, at0, s, at, pipe, tip, c + 1)
    ensures Swept(s0, at0, s, at, pipe, Snoc(tip, c), 256)
    ensures Fired(s0, at0, pipe, uniq, Snoc(tip, c), 256) == Fired(s0, at0, pipe, uniq, tip, c + 1)
    ensures ToDo(at0, Snoc(tip, c), 256) <= ToDo(at0, tip, c + 1)
  {
    forall q ensures Before(q, Snoc(tip, c), 256) <==> Before(q, tip, c + 1) {
      BeforeChild(q, tip, c);
    }
    Move(s0, at0, s, at, pipe, uniq, tip, c + 1, Snoc(tip, c), 256);
  }

  lemma MoveUp(s0: Store<Pipes>, at0: map<Key, Ptr>, s: Store<Pipes>, at: map<Key, Ptr>,
               pipe: Pipe, uniq: bool, tip: Key, c: Byte)
    requires Swept(s0, at0, s, at, pipe, Snoc(tip, c), 256)
    ensures Swept(s0, at0, s, at, pipe, tip, c + 1)
    ensures Fired(s0, at0, pipe, uniq, tip, c + 1) == Fired(s0, at0, pipe, uniq, Snoc(tip, c), 256)
    ensures ToDo(at0, tip, c + 1) <= ToDo(at0, Snoc(tip, c), 256)
  {
    forall q ensures Before(q, Snoc(tip, c), 256) <==> Before(q, tip, c + 1) {
      BeforeChild(q, tip, c);
    }
    Move(s0, at0, s, at, pipe, uniq, Snoc(tip, c), 256, tip, c + 1);
  }

  lemma Skip(s0: Store<Pipes>, at0: map<Key, Ptr>, s: Store<Pipes>, at: map<Key, Ptr>, path: map<Ptr, Key>,
             pipe: Pipe, uniq: bool, tip: Key, d: int, e: int)
    requires Swept(s0, at0, s, at, pipe, tip, d) && Shape(s, at, path) && tip in at
    requires 0 <= d <= e && forall c: Byte :: d <= c < e ==> Slot(s[at[tip]], c) == NULL
    ensures Swept(s0, at0, s, at, pipe, tip, e)
    ensures Fired(s0, at0, pipe, uniq, tip, e) == Fired(s0, at0, pipe, uniq, tip, d)
    ensures ToDo(at0, tip, e) <= ToDo(at0, tip, d)
  {
    forall q
      ensures Before(q, tip, d) ==> Before(q, tip, e)
      ensures Before(q, tip, e) && !Before(q, tip, d) ==> q !in at
    {
      BeforeSkip(q, tip, d, e);
      if Before(q, tip, e) && !Before(q, tip, d) {
        NothingBelow(s, at, path, tip, q[|tip|], q);
      }
    }
    Move(s0, at0, s, at, pipe, uniq, tip, d, tip, e);
  }

  /** Taking the pipe out of the set of `tip`. */
  lemma Enter(s0: Store<Pipes>, at0: map<Key, Ptr>, s: Store<Pipes>, t: Store<Pipes>, at: map<Key, Ptr>,
              pipe: Pipe, uniq: bool, tip: Key)
    requires Swept(s0, at0, s, at, pipe, tip, -1) && tip in at
    requires OneVal(s, at, t, at, None, tip, Erase(Get(s, at, None, tip), pipe))
    ensures Swept(s0, at0, t, at, pipe, tip, 0)
    ensures Fired(s0, at0, pipe, uniq, tip, 0) ==
            Fired(s0, at0, pipe, uniq, tip, -1) + if Fires(Get(s, at, None, tip), pipe, uniq) then {tip} else {}
    ensures tip !in Fired(s0, at0, pipe, uniq, tip, -1)
    ensures ToDo(at0, tip, 0) == ToDo(at0, tip, -1) - {tip}
  {
    forall q
      ensures Before(q, tip, 0) <==> Before(q, tip, -1) || q == tip
      ensures !Before(tip, tip, -1)
    {
      BeforeEnter(q, tip);
    }
  }

  // -------------------------------------------------------------- the stack

  /** The table reaches up to a child. */
  ghost predicate Ended(n: Node<Pipes>)
    requires WellFormed(n)
  {
    n.count > 0 && Slot(n, n.min + n.count - 1) != NULL
  }

  /**
   `newMin` and `newMax` are the first and last of the children kept below byte `d`, or still the
   last and first byte of the table.
   */
  ghost predicate Scanned(n: Node<Pipes>, newMin: Byte, newMax: Byte, d: int)
    requires WellFormed(n)
  {
    n.count > 1 ==>
      && n.min <= newMin <= n.min + n.count - 1
      && n.min <= newMax <= n.min + n.count - 1
      && (newMin == n.min + n.count - 1 || (newMin < d && Slot(n, newMin) != NULL))
      && (newMax == n.min || (newMax < d && Slot(n, newMax) != NULL))
      && forall b: Byte :: n.min <= b < d && Slot(n, b) != NULL ==> newMin <= b <= newMax
  }

  /** Scanning past a child that is kept. */
  lemma ScanKept(n: Node<Pipes>, newMin: Byte, newMax: Byte, c: Byte)
    requires WellFormed(n) && Scanned(n, newMin, newMax, c) && Slot(n, c) != NULL
    ensures Scanned(n, if c < newMin then c else newMin, if c > newMax then c else newMax, c + 1)
  {
  }

  /** Scanning past a byte for which there is no child, or no longer one. */
  lemma ScanGone(n: Node<Pipes>, m: Node<Pipes>, newMin: Byte, newMax: Byte, c: Byte)
    requires WellFormed(n) && Scanned(n, newMin, newMax, c) && Ended(n) && n.count > 1
    requires WellFormed(m) && m.min == n.min && m.count == n.count
    requires forall d: Byte :: Slot(m, d) == if d == c then NULL else Slot(n, d)
    ensures Scanned(m, newMin, newMax, c + 1)
    ensures c < n.min + n.count - 1 ==> Ended(m)
  {
  }

  /** None of this depends on the set of the node. */
  lemma TableOnly(n: Node<Pipes>, v: Pipes, newMin: Byte, newMax: Byte, d: int)
    requires WellFormed(n)
    ensures var m := n.(val := v);
            && WellFormed(m) && (Compact(n) ==> Compact(m)) && (Ended(n) ==> Ended(m))
            && (Scanned(n, newMin, newMax, d) ==> Scanned(m, newMin, newMax, d))
  {
    assert forall c: Byte :: Slot(n.(val := v), c) == Slot(n, c);
  }

  lemma CompactEnded(n: Node<Pipes>)
    requires WellFormed(n) && Compact(n) && n.count > 0
    ensures Ended(n)
  {
  }

  /** The frame of a node that waits for its child on the way to `tip`. */
  ghost predicate WaitsFor(s: Store<Pipes>, at: map<Key, Ptr>, tip: Key, i: nat, f: Frame) {
    && i < |tip| && tip[..i] in at && at[tip[..i]] in s && WellFormed(s[at[tip[..i]]])
    && var n := s[at[tip[..i]]];
       && f.node == at[tip[..i]] && f.size == i && f.processed
       && f.child < n.count && n.min + f.child == tip[i]
       && Ended(n) && Scanned(n, f.newMin, f.newMax, tip[i])
  }

  /** The frame of the node at `tip`, about to be visited for the first time or for its next child. */
  ghost predicate Visits(s: Store<Pipes>, at: map<Key, Ptr>, tip: Key, e: int, f: Frame) {
    && tip in at && at[tip] in s && WellFormed(s[at[tip]])
    && var n := s[at[tip]];
       && f.node == at[tip] && f.size == |tip| && !f.processed
       && (f.child == 0 ==> e == -1)
       && (f.child > 0 ==> && f.child < n.count && e == n.min + f.child
                           && Ended(n) && Scanned(n, f.newMin, f.newMax, e))
  }

  ghost predicate Stacked(s: Store<Pipes>, at: map<Key, Ptr>, tip: Key, e: int, stack: seq<Frame>) {
    && |tip| <= |stack| <= |tip| + 1
    && (forall i :: 0 <= i < |tip| ==> WaitsFor(s, at, tip, i, stack[i]))
    && if |stack| == |tip| then e == 256 else Visits(s, at, tip, e, stack[|tip|])
  }

  /** Frames of nodes that have not changed stay good, on the way to any key with the same start. */
  lemma KeepWaiting(s: Store<Pipes>, at: map<Key, Ptr>, t: Store<Pipes>, at': map<Key, Ptr>,
                    tip: Key, k: Key, tip': Key, stack: seq<Frame>)
    requires |k| <= |stack| && forall i :: 0 <= i < |k| ==> WaitsFor(s, at, tip, i, stack[i])
    requires Others(s, at, t, at', k) && k <= tip && k <= tip'
    requires forall q :: q in at && q <= k ==> q in at'
    ensures forall i :: 0 <= i < |k| ==> WaitsFor(t, at', tip', i, stack[i])
  {
    forall i | 0 <= i < |k|
      ensures WaitsFor(t, at', tip', i, stack[i])
    {
      assert tip[..i] == k[..i] == tip'[..i] && tip[i] == k[i] == tip'[i];
      assert WaitsFor(s, at, tip, i, stack[i]) && k[..i] != k && k[..i] <= k;
    }
  }

  /** A frame on top that is not marked as processed is a node to visit. */
  lemma TopVisits(s: Store<Pipes>, at: map<Key, Ptr>, tip: Key, e: int, stack: seq<Frame>, it: Frame)
    requires Stacked(s, at, tip, e, stack + [it]) && !it.processed
    ensures |stack| == |tip| && Visits(s, at, tip, e, it)
    ensures forall i :: 0 <= i < |tip| ==> WaitsFor(s, at, tip, i, stack[i])
  {
    assert (stack + [it])[|stack|] == it;
    assert forall i :: 0 <= i < |stack| ==> (stack + [it])[i] == stack[i];
  }

  /** A frame on top that is marked as processed has just been returned to from its child. */
  lemma TopWaits(s: Store<Pipes>, at: map<Key, Ptr>, tip: Key, e: int, stack: seq<Frame>, it: Frame)
    requires Stacked(s, at, tip, e, stack + [it]) && it.processed
    ensures |stack| + 1 == |tip| && e == 256 && WaitsFor(s, at, tip, |stack|, it)
    ensures forall i :: 0 <= i < |stack| ==> WaitsFor(s, at, tip, i, stack[i])
    ensures tip == Snoc(tip[..|stack|], tip[|stack|])
  {
    assert (stack + [it])[|stack|] == it;
    assert forall i :: 0 <= i < |stack| ==> (stack + [it])[i] == stack[i];
  }

  /** A stack is made of frames that wait, the last of them new, and possibly a node to visit. */
  lemma Pushed(s: Store<Pipes>, at: map<Key, Ptr>, tip: Key, c: Byte, e: int, stack: seq<Frame>, stack': seq<Frame>)
    requires |stack| == |tip| && forall i :: 0 <= i < |tip| ==> WaitsFor(s, at, Snoc(tip, c), i, stack[i])
    requires |tip| + 1 <= |stack'| <= |tip| + 2 && stack'[..|stack|] == stack
    requires WaitsFor(s, at, Snoc(tip, c), |tip|, stack'[|tip|])
    requires if |stack'| == |tip| + 1 then e == 256 else Visits(s, at, Snoc(tip, c), e, stack'[|tip| + 1])
    ensures Stacked(s, at, Snoc(tip, c), e, stack')
  {
  }

  // --------------------------------------------------------------- the walk

  /** The tables on the path to `tip` are being worked on. */
  ghost function Loose(at: map<Key, Ptr>, tip: Key, e: int): set<Key> {
    set q | q in at && q <= tip && (q == tip ==> 0 <= e < 256)
  }

  /** The nodes on the path to `tip` may have become redundant. */
  ghost function Bare(at: map<Key, Ptr>, tip: Key): set<Key> {
    set q | q in at && q <= tip
  }

  /** The tree part of what holds each time round the loop. */
  ghost predicate Walked(s0: Store<Pipes>, at0: map<Key, Ptr>, tree: Tree<Pipes>, pipe: Pipe, tip: Key, e: int)
    reads tree
  {
    && tree.zero == None
    && tree.ValidExcept(Loose(tree.at, tip, e), Bare(tree.at, tip))
    && tree.at.Keys <= at0.Keys
    && NoEmptySets(s0, at0)
    && Swept(s0, at0, tree.nodes, tree.at, pipe, tip, e)
  }

  /** The callback part. */
  ghost predicate Told(s0: Store<Pipes>, at0: map<Key, Ptr>, pipe: Pipe, uniq: bool, tip: Key, e: int, calls: seq<Key>)
  {
    Lists(calls, Fired(s0, at0, pipe, uniq, tip, e))
  }

  ghost predicate Buffered(tip: Key, buff: Key) {
    |tip| <= |buff| && buff[..|tip|] == tip
  }

  lemma BufferNext(tip: Key, buff: Key, c: Byte)
    requires Buffered(tip, buff) && |tip| < |buff|
    ensures Buffered(Snoc(tip, c), buff[|tip| := c])
  {
  }

  /** What the sets of nodes look like during the walk. */
  lemma PipesHere(s0: Store<Pipes>, at0: map<Key, Ptr>, tree: Tree<Pipes>, pipe: Pipe, tip: Key, e: int)
    requires Walked(s0, at0, tree, pipe, tip, e) && tip in tree.at && -1 <= e
    ensures var v := Get(tree.nodes, tree.at, None, tip);
            && v != Some({})
            && (pipe !in AsSet(v) ==> Erase(v, pipe) == v)
            && (e >= 0 ==> pipe !in AsSet(v))
  {
    BeforeEnter(tip, tip);
    if e >= 0 {
      BeforeSkip(tip, tip, 0, e);
    }
    assert Get(s0, at0, None, tip) != Some({});
    var v := Get(tree.nodes, tree.at, None, tip);
    assert pipe !in AsSet(v) ==> AsSet(v) - {pipe} == AsSet(v);
  }

  /** Removal of the pipe from the set of the node visited, with the callback. */
  method EraseHere(ghost s0: Store<Pipes>, ghost at0: map<Key, Ptr>, tree: Tree<Pipes>, pipe: Pipe, uniq: bool,
                   ghost tip: Key, ghost e: int, it: Frame, calls: seq<Key>, buff: Key)
    returns (calls': seq<Key>)
    requires Walked(s0, at0, tree, pipe, tip, e) && Told(s0, at0, pipe, uniq, tip, e, calls) && Buffered(tip, buff)
    requires -1 <= e < 256 && tree.IsAt(tip, it.node) && it.size == |tip|
    modifies tree`nodes
    ensures Walked(s0, at0, tree, pipe, tip, if e < 0 then 0 else e)
    ensures Told(s0, at0, pipe, uniq, tip, if e < 0 then 0 else e, calls')
    ensures Others(old(tree.nodes), tree.at, tree.nodes, tree.at, tip)
    ensures it.node in old(tree.nodes) && it.node in tree.nodes
    ensures tree.nodes[it.node] == old(tree.nodes)[it.node].(val := tree.nodes[it.node].val)
    ensures e == -1 ==> ToDo(at0, tip, 0) < ToDo(at0, tip, -1)
  {
    hide Good, Shape;
    ghost var loose, bare := Loose(tree.at, tip, e), Bare(tree.at, tip);
    NodeOf(tree.nodes, tree.at, tree.path, None, loose, bare, tip);
    PipesHere(s0, at0, tree, pipe, tip, e);
    calls' := calls;
    var pipes := tree.nodes[it.node].val;
    assert pipes == Get(tree.nodes, tree.at, None, tip);
    if pipes.Some? && pipe in pipes.value {
      assert e == -1;
      var rest := pipes.value - {pipe};
      if !uniq || rest == {} {
        calls' := calls + [buff[..it.size]];
      }
      tree.SetVal(it.node, tip, if rest == {} then None else Some(rest), loose, bare, bare);
    } else {
      Unchanged(tree.nodes, tree.at, tree.path, None, loose, bare, tip);
    }
    if e == -1 {
      Enter(s0, at0, old(tree.nodes), tree.nodes, tree.at, pipe, uniq, tip);
      Weaken(tree.nodes, tree.at, tree.path, None, loose, bare, Loose(tree.at, tip, 0), bare);
      if calls' != calls {
        ListsAppend(calls, Fired(s0, at0, pipe, uniq, tip, -1), [tip], {tip});
      }
      assert tip in ToDo(at0, tip, -1) by { BeforeEnter(tip, tip); }
    }
  }

  /** The same, for a frame on top of a stack: the frames and the table of the node stay as they were. */
  method EnterNode(ghost s0: Store<Pipes>, ghost at0: map<Key, Ptr>, tree: Tree<Pipes>, pipe: Pipe, uniq: bool,
                   ghost tip: Key, ghost e: int, ghost stack: seq<Frame>, it: Frame, calls: seq<Key>, buff: Key)
    returns (calls': seq<Key>)
    requires Walked(s0, at0, tree, pipe, tip, e) && Told(s0, at0, pipe, uniq, tip, e, calls) && Buffered(tip, buff)
    requires Visits(tree.nodes, tree.at, tip, e, it) && |stack| == |tip|
    requires forall i :: 0 <= i < |tip| ==> WaitsFor(tree.nodes, tree.at, tip, i, stack[i])
    modifies tree`nodes
    ensures Walked(s0, at0, tree, pipe, tip, if e < 0 then 0 else e)
    ensures Told(s0, at0, pipe, uniq, tip, if e < 0 then 0 else e, calls')
    ensures e == -1 ==> ToDo(at0, tip, 0) < ToDo(at0, tip, -1)
    ensures forall i :: 0 <= i < |tip| ==> WaitsFor(tree.nodes, tree.at, tip, i, stack[i])
    ensures it.node in tree.nodes && WellFormed(tree.nodes[it.node])
    ensures var n := tree.nodes[it.node];
            && (n.count > 0 ==> Ended(n) && it.child < n.count)
            && (it.child > 0 ==> n.count > 1 && e == n.min + it.child && Scanned(n, it.newMin, it.newMax, e))
  {
    hide Good, Shape, Swept, NoEmptySets, Fired, ToDo, Told, WaitsFor;
    NodeOf(tree.nodes, tree.at, tree.path, None, Loose(tree.at, tip, e), Bare(tree.at, tip), tip);
    calls' := EraseHere(s0, at0, tree, pipe, uniq, tip, e, it, calls, buff);
    KeepWaiting(old(tree.nodes), tree.at, tree.nodes, tree.at, tip, tip, tip, stack);
    var n := tree.nodes[it.node];
    TableOnly(old(tree.nodes)[it.node], n.val, it.newMin, it.newMax, e);
    if e < 0 && n.count > 0 {
      CompactEnded(n);
    }
  }

  /** A first visit to a node, or the next visit to one with several children. */
  method PreVisit(ghost s0: Store<Pipes>, ghost at0: map<Key, Ptr>, tree: Tree<Pipes>, pipe: Pipe, uniq: bool,
                  ghost tip: Key, ghost e: int, stack: seq<Frame>, it: Frame, calls: seq<Key>, buff: Key)
    returns (stack': seq<Frame>, calls': seq<Key>, buff': Key, ghost tip': Key, ghost e': int)
    requires Walked(s0, at0, tree, pipe, tip, e) && Told(s0, at0, pipe, uniq, tip, e, calls) && Buffered(tip, buff)
    requires Stacked(tree.nodes, tree.at, tip, e, stack + [it]) && !it.processed
    modifies tree`nodes
    ensures Walked(s0, at0, tree, pipe, tip', e') && Told(s0, at0, pipe, uniq, tip', e', calls')
    ensures Buffered(tip', buff')
    ensures Stacked(tree.nodes, tree.at, tip', e', stack')
    ensures e == -1 ==> ToDo(at0, tip', e') < ToDo(at0, tip, e)
    ensures e >= 0 ==> ToDo(at0, tip', e') <= ToDo(at0, tip, e)
    ensures e >= 0 ==> |tip'| == |tip| + 1 && stack'[|tip|].child == it.child && (e' == -1 || e' == 256)
  {
    hide Good, Shape, Swept, NoEmptySets, Fired, ToDo, WaitsFor, Scanned;
    TopVisits(tree.nodes, tree.at, tip, e, stack, it);
    calls' := EnterNode(s0, at0, tree, pipe, uniq, tip, e, stack, it, calls, buff);
    ghost var d := if e < 0 then 0 else e;
    buff' := if it.size >= |buff| then Realloc(buff, it.size + 256) else buff;
    assert Buffered(tip, buff');
    var n := tree.nodes[it.node];
    if n.count == 0 {
      ghost var loose, bare := Loose(tree.at, tip, d), Bare(tree.at, tip);
      NodeOf(tree.nodes, tree.at, tree.path, None, loose, bare, tip);
      Skip(s0, at0, tree.nodes, tree.at, tree.path, pipe, uniq, tip, d, 256);
      Tighten(tree.nodes, tree.at, tree.path, None, loose, bare, tip, Loose(tree.at, tip, 256));
      stack', tip', e' := stack, tip, 256;
    } else {
      stack', tip', e' := GoDown(s0, at0, tree, pipe, uniq, tip, d, stack, it, n);
      BufferNext(tip, buff', n.min + it.child);
      buff' := buff'[it.size := n.min + it.child];
    }
  }

  /** Pushes the node again, and then its next child if there is one. */
  method GoDown(ghost s0: Store<Pipes>, ghost at0: map<Key, Ptr>, tree: Tree<Pipes>, pipe: Pipe, uniq: bool,
                ghost tip: Key, ghost d: int, stack: seq<Frame>, it: Frame, n: Node<Pipes>)
    returns (stack': seq<Frame>, ghost tip': Key, ghost e': int)
    requires Walked(s0, at0, tree, pipe, tip, d) && 0 <= d < 256
    requires tree.IsAt(tip, it.node) && it.node in tree.nodes && n == tree.nodes[it.node]
    requires forall i :: 0 <= i < |tip| ==> i < |stack| && WaitsFor(tree.nodes, tree.at, tip, i, stack[i])
    requires it.size == |tip| == |stack| && it.child < n.count && WellFormed(n) && Ended(n)
    requires it.child == 0 ==> d == 0
    requires it.child > 0 ==> d == n.min + it.child && Scanned(n, it.newMin, it.newMax, d)
    ensures tip' == Snoc(tip, n.min + it.child)
    ensures Walked(s0, at0, tree, pipe, tip', e')
    ensures Fired(s0, at0, pipe, uniq, tip', e') == Fired(s0, at0, pipe, uniq, tip, d)
    ensures ToDo(at0, tip', e') <= ToDo(at0, tip, d)
    ensures Stacked(tree.nodes, tree.at, tip', e', stack') && stack'[|tip|].child == it.child && (e' == -1 || e' == 256)
  {
    hide Good, Shape, Swept, NoEmptySets, Fired, ToDo;
    ghost var loose, bare := Loose(tree.at, tip, d), Bare(tree.at, tip);
    NodeOf(tree.nodes, tree.at, tree.path, None, loose, bare, tip);
    var c := n.min + it.child;
    var f := it.(processed := true);
    if n.count > 1 && it.child == 0 {
      f := f.(newMin := n.min + n.count - 1, newMax := n.min);
    }
    tip' := Snoc(tip, c);
    assert tip'[..|tip|] == tip;
    var child := if n.count == 1 then n.next.node else n.next.table[it.child];
    assert child == Slot(n, c) == ChildAt(tree.at, tip');
    stack' := stack + [f];
    if child != NULL {
      e' := -1;
      stack' := stack' + [Frame(child, it.size + 1, 0, 0, 0, false)];
      Skip(s0, at0, tree.nodes, tree.at, tree.path, pipe, uniq, tip, d, c);
      MoveDown(s0, at0, tree.nodes, tree.at, pipe, uniq, tip, c);
      NodeOf(tree.nodes, tree.at, tree.path, None, loose, bare, tip');
    } else {
      e' := 256;
      Skip(s0, at0, tree.nodes, tree.at, tree.path, pipe, uniq, tip, d, c + 1);
      MovePast(s0, at0, tree.nodes, tree.at, pipe, uniq, tip, c);
    }
    Weaken(tree.nodes, tree.at, tree.path, None, loose, bare, Loose(tree.at, tip', e'), Bare(tree.at, tip'));
    Unchanged(tree.nodes, tree.at, tree.path, None, loose, bare, tip);
    KeepWaiting(tree.nodes, tree.at, tree.nodes, tree.at, tip, tip, tip', stack);
    Pushed(tree.nodes, tree.at, tip, c, e', stack, stack');
  }

  lemma SweptSame(s0: Store<Pipes>, at0: map<Key, Ptr>, s: Store<Pipes>, at: map<Key, Ptr>,
                  t: Store<Pipes>, at': map<Key, Ptr>, pipe: Pipe, tip: Key, e: int)
    requires Swept(s0, at0, s, at, pipe, tip, e) && SameVals(s, at, t, at', None)
    ensures Swept(s0, at0, t, at', pipe, tip, e)
  {
  }

  /** The path to a child is the path to its parent and the child. */
  lemma StepBack(at: map<Key, Ptr>, cur: Key, c: Byte)
    ensures forall q :: q in Bare(at, Snoc(cur, c)) ==> q == Snoc(cur, c) || q in Bare(at, cur)
    ensures forall q :: q in Loose(at, Snoc(cur, c), 256) ==> q in Bare(at, cur)
  {
  }

  /** Deletes the child just dealt with, which is redundant. */
  method DeleteHere(ghost s0: Store<Pipes>, ghost at0: map<Key, Ptr>, tree: Tree<Pipes>, pipe: Pipe,
                    ghost cur: Key, c: Byte, child: Ptr, it: Frame)
    requires Walked(s0, at0, tree, pipe, Snoc(cur, c), 256) && tree.IsAt(cur, it.node) && it.node in tree.nodes
    requires Swept(s0, at0, tree.nodes, tree.at, pipe, cur, c + 1)
    requires var n := tree.nodes[it.node];
             WellFormed(n) && Ended(n) && Slot(n, c) == child && Scanned(n, it.newMin, it.newMax, c)
    requires tree.IsAt(Snoc(cur, c), child) && child in tree.nodes && child != NULL
    requires Redundant(tree.nodes[child], None)
    modifies tree
    ensures tree.IsAt(cur, it.node) && tree.ValidExcept(Bare(tree.at, cur), Bare(tree.at, cur))
    ensures tree.at.Keys <= at0.Keys && Swept(s0, at0, tree.nodes, tree.at, pipe, cur, c + 1)
    ensures Others(old(tree.nodes), old(tree.at), tree.nodes, tree.at, cur)
    ensures forall q :: q in old(tree.at) && q <= cur ==> q in tree.at
    ensures it.node in old(tree.nodes) && it.node in tree.nodes && WellFormed(tree.nodes[it.node])
    ensures var n, m := old(tree.nodes)[it.node], tree.nodes[it.node];
            && (n.count == 1 ==> m.count <= 1 && m.min == n.min && Compact(m))
            && (n.count > 1 ==> && m.count == n.count && m.min == n.min && Scanned(m, it.newMin, it.newMax, c + 1)
                                && (c < n.min + n.count - 1 ==> Ended(m)))
  {
    hide Good, Shape, Swept, NoEmptySets, Ended, Scanned;
    ghost var tip := Snoc(cur, c);
    ghost var loose, bare := Loose(tree.at, tip, 256), Bare(tree.at, tip);
    assert tip[..|cur|] == cur;
    StepBack(tree.at, cur, c);
    var n := tree.nodes[it.node];
    var m := if n.count == 1 then n.(next := One(NULL), count := 0, live := n.live - 1) else Hole(n, c);
    if n.count > 1 {
      ScanGone(n, m, it.newMin, it.newMax, c);
    }
    tree.Unlink(it.node, cur, c, child, m, loose, bare, Bare(tree.at - {tip}, cur));
    SweptSame(s0, at0, old(tree.nodes), old(tree.at), tree.nodes, tree.at, pipe, cur, c + 1);
    Weaken(tree.nodes, tree.at, tree.path, None, loose, Bare(tree.at, cur), Bare(tree.at, cur), Bare(tree.at, cur));
  }

  /** Deletes the child just dealt with if it is redundant, and otherwise notes that it is kept. */
  method PruneHere(ghost s0: Store<Pipes>, ghost at0: map<Key, Ptr>, tree: Tree<Pipes>, pipe: Pipe, uniq: bool,
                   ghost cur: Key, c: Byte, it: Frame)
    returns (it': Frame)
    requires Walked(s0, at0, tree, pipe, Snoc(cur, c), 256) && tree.IsAt(cur, it.node) && it.node in tree.nodes
    requires var n := tree.nodes[it.node];
             && WellFormed(n) && Ended(n) && it.child < n.count && n.min + it.child == c
             && Scanned(n, it.newMin, it.newMax, c)
    modifies tree
    ensures tree.IsAt(cur, it.node) && tree.ValidExcept(Bare(tree.at, cur), Bare(tree.at, cur))
    ensures tree.at.Keys <= at0.Keys && Swept(s0, at0, tree.nodes, tree.at, pipe, cur, c + 1)
    ensures Fired(s0, at0, pipe, uniq, cur, c + 1) == Fired(s0, at0, pipe, uniq, Snoc(cur, c), 256)
    ensures ToDo(at0, cur, c + 1) <= ToDo(at0, Snoc(cur, c), 256)
    ensures Others(old(tree.nodes), old(tree.at), tree.nodes, tree.at, cur)
    ensures forall q :: q in old(tree.at) && q <= cur ==> q in tree.at
    ensures it.node in old(tree.nodes) && it.node in tree.nodes && WellFormed(tree.nodes[it.node])
    ensures it' == it.(newMin := it'.newMin, newMax := it'.newMax)
    ensures var n, m := old(tree.nodes)[it.node], tree.nodes[it.node];
            && (n.count == 1 ==> m.count <= 1 && m.min == n.min && Compact(m))
            && (n.count > 1 ==> && m.count == n.count && m.min == n.min && Scanned(m, it'.newMin, it'.newMax, c + 1)
                                && (it.child + 1 < n.count ==> Ended(m)))
  {
    hide Good, Shape, Swept, NoEmptySets, Fired, ToDo;
    ghost var tip := Snoc(cur, c);
    ghost var loose, bare := Loose(tree.at, tip, 256), Bare(tree.at, tip);
    assert tip[..|cur|] == cur;
    NodeOf(tree.nodes, tree.at, tree.path, None, loose, bare, cur);
    MoveUp(s0, at0, tree.nodes, tree.at, pipe, uniq, cur, c);
    StepBack(tree.at, cur, c);
    it' := it;
    var n := tree.nodes[it.node];
    var child := if n.count == 1 then n.next.node else n.next.table[it.child];
    assert child == Slot(n, c) == ChildAt(tree.at, tip);
    hide Scanned, Ended;
    if child == NULL {
      if n.count > 1 {
        ScanGone(n, n, it.newMin, it.newMax, c);
      }
      if tip in tree.at {
        NodeOf(tree.nodes, tree.at, tree.path, None, loose, bare, tip);
      }
      Weaken(tree.nodes, tree.at, tree.path, None, loose, bare, Bare(tree.at, cur), Bare(tree.at, cur));
      Unchanged(tree.nodes, tree.at, tree.path, None, loose, bare, cur);
    } else {
      NodeOf(tree.nodes, tree.at, tree.path, None, loose, bare, tip);
      if tree.nodes[child].val.None? && tree.nodes[child].live == 0 {
        DeleteHere(s0, at0, tree, pipe, cur, c, child, it);
      } else {
        NotRedundant(tree.nodes, tree.at, tree.path, None, loose, bare, tip, Bare(tree.at, cur));
        Weaken(tree.nodes, tree.at, tree.path, None, loose, Bare(tree.at, cur), Bare(tree.at, cur), Bare(tree.at, cur));
        Unchanged(tree.nodes, tree.at, tree.path, None, loose, bare, cur);
        if n.count > 1 {
          ScanKept(n, it.newMin, it.newMax, c);
          if c < it'.newMin {
            it' := it'.(newMin := c);
          }
          if c > it'.newMax {
            it' := it'.(newMax := c);
          }
        }
      }
    }
  }

  /** The last thing done to a table all of whose children have been dealt with. */
  method Settle(n: Node<Pipes>, newMin: Byte, newMax: Byte) returns (m: Node<Pipes>)
    requires WellFormed(n) && n.count > 1 && Scanned(n, newMin, newMax, n.min + n.count)
    ensures WellFormed(m) && Compact(m) && m.val == n.val && m.live == n.live
    ensures forall d: Byte :: Slot(m, d) == Slot(n, d)
  {
    if n.live == 0 {
      LiveZero(n);
      m := n.(next := One(NULL), count := 0);
      return;
    }
    KeptEnds(n, newMin, newMax);
    var lo, hi := newMin - n.min, newMax - n.min;
    if n.live == 1 {
      assert newMin == newMax && newMin >= n.min && newMin < n.min + n.count by {
        CountLiveOne(n.next.table, lo);
      }
      m := Single(n, lo);
    } else if newMin > n.min || newMax < n.min + n.count - 1 {
      assert newMax - newMin + 1 > 1 by {
        CountLiveOne(n.next.table, lo);
      }
      assert newMin >= n.min && newMax <= n.min + n.count - 1 && newMax - newMin + 1 < n.count;
      m := Slice(n, lo, hi);
    } else {
      m := n;
    }
  }

  /** When the whole table has been scanned and a child is left, the ends noted are children. */
  lemma KeptEnds(n: Node<Pipes>, newMin: Byte, newMax: Byte)
    requires WellFormed(n) && n.count > 1 && n.live > 0 && Scanned(n, newMin, newMax, n.min + n.count)
    ensures n.min <= newMin <= newMax < n.min + n.count
    ensures n.next.table[newMin - n.min] != NULL && n.next.table[newMax - n.min] != NULL
    ensures forall i :: 0 <= i < newMin - n.min || newMax - n.min < i < n.count ==> n.next.table[i] == NULL
  {
    LiveZero(n);
    var b: Byte :| Slot(n, b) != NULL;
    assert newMin <= b <= newMax;
    forall i | 0 <= i < newMin - n.min || newMax - n.min < i < n.count
      ensures n.next.table[i] == NULL
    {
      assert Slot(n, n.min + i) == n.next.table[i];
    }
  }

  /** The return to a node from one of its children. */
  method PostVisit(ghost s0: Store<Pipes>, ghost at0: map<Key, Ptr>, tree: Tree<Pipes>, pipe: Pipe, uniq: bool,
                   ghost tip: Key, stack: seq<Frame>, it: Frame, ghost calls: seq<Key>, ghost buff: Key)
    returns (stack': seq<Frame>, ghost tip': Key, ghost e': int)
    requires Walked(s0, at0, tree, pipe, tip, 256) && Told(s0, at0, pipe, uniq, tip, 256, calls) && Buffered(tip, buff)
    requires Stacked(tree.nodes, tree.at, tip, 256, stack + [it]) && it.processed
    modifies tree
    ensures Walked(s0, at0, tree, pipe, tip', e') && Told(s0, at0, pipe, uniq, tip', e', calls) && Buffered(tip', buff)
    ensures Stacked(tree.nodes, tree.at, tip', e', stack')
    ensures ToDo(at0, tip', e') <= ToDo(at0, tip, 256)
    ensures |stack'| == |stack| || (|stack'| == |stack| + 1 && 0 <= e' < 256 && stack'[|stack|].child == it.child + 1)
  {
    hide Good, Shape, Swept, NoEmptySets, Fired, ToDo, Scanned;
    TopWaits(tree.nodes, tree.at, tip, 256, stack, it);
    ghost var cur := tip[..|stack|];
    var n := tree.nodes[it.node];
    var c := n.min + it.child;
    assert buff[..|cur|] == cur;
    var f := PruneHere(s0, at0, tree, pipe, uniq, cur, c, it);
    KeepWaiting(old(tree.nodes), old(tree.at), tree.nodes, tree.at, tip, cur, cur, stack);
    hide WaitsFor;
    tip' := cur;
    if n.count > 1 && it.child + 1 < n.count {
      e' := c + 1;
      stack' := stack + [f.(child := it.child + 1, processed := false)];
      Weaken(tree.nodes, tree.at, tree.path, None, Bare(tree.at, cur), Bare(tree.at, cur),
             Loose(tree.at, cur, e'), Bare(tree.at, cur));
    } else {
      e', stack' := 256, stack;
      Finish(s0, at0, tree, pipe, uniq, cur, c + 1, f, stack);
    }
  }

  /** Compacts the table of a node all of whose children have been dealt with. */
  method Finish(ghost s0: Store<Pipes>, ghost at0: map<Key, Ptr>, tree: Tree<Pipes>, pipe: Pipe, uniq: bool,
                ghost cur: Key, ghost d: int, it: Frame, ghost stack: seq<Frame>)
    requires tree.zero == None && NoEmptySets(s0, at0) && tree.at.Keys <= at0.Keys
    requires tree.IsAt(cur, it.node) && tree.ValidExcept(Bare(tree.at, cur), Bare(tree.at, cur))
    requires it.node in tree.nodes && WellFormed(tree.nodes[it.node])
    requires var n := tree.nodes[it.node];
             && n.min + n.count <= d <= 256
             && if n.count > 1 then Scanned(n, it.newMin, it.newMax, n.min + n.count) else Compact(n)
    requires 0 <= d && Swept(s0, at0, tree.nodes, tree.at, pipe, cur, d)
    requires |stack| == |cur| && forall i :: 0 <= i < |cur| ==> WaitsFor(tree.nodes, tree.at, cur, i, stack[i])
    modifies tree`nodes
    ensures Walked(s0, at0, tree, pipe, cur, 256)
    ensures Fired(s0, at0, pipe, uniq, cur, 256) == Fired(s0, at0, pipe, uniq, cur, d)
    ensures ToDo(at0, cur, 256) <= ToDo(at0, cur, d)
    ensures forall i :: 0 <= i < |cur| ==> WaitsFor(tree.nodes, tree.at, cur, i, stack[i])
  {
    hide Good, Shape, Swept, NoEmptySets, Fired, ToDo, Scanned;
    var n := tree.nodes[it.node];
    ghost var bare := Bare(tree.at, cur);
    NodeOf(tree.nodes, tree.at, tree.path, None, bare, bare, cur);
    Skip(s0, at0, tree.nodes, tree.at, tree.path, pipe, uniq, cur, d, 256);
    if n.count > 1 {
      var m := Settle(n, it.newMin, it.newMax);
      tree.SetTable(it.node, cur, m, bare, bare, Loose(tree.at, cur, 256));
      SweptSame(s0, at0, old(tree.nodes), tree.at, tree.nodes, tree.at, pipe, cur, 256);
      KeepWaiting(old(tree.nodes), tree.at, tree.nodes, tree.at, cur, cur, cur, stack);
    } else {
      Tighten(tree.nodes, tree.at, tree.path, None, bare, bare, cur, Loose(tree.at, cur, 256));
    }
  }

  // ------------------------------------------------------------ the outcome

  /** The subscriptions without those of one pipe. */
  function Dropped(m: Subs, pipe: Pipe): Subs {
    map k | k in m && m[k] != {pipe} :: m[k] - {pipe}
  }

  /** The prefixes the callback is due for. */
  ghost function Due(m: Subs, pipe: Pipe, uniq: bool): set<Key> {
    set k | k in m && pipe in m[k] && (!uniq || m[k] == {pipe})
  }

  lemma LastOne(r: set<Pipe>, pipe: Pipe)
    ensures r - {pipe} == {} <==> r == {} || r == {pipe}
  {
  }

  lemma DroppedHolders(m: Subs, pipe: Pipe, k: Key)
    requires Proper(m)
    ensures Proper(Dropped(m, pipe)) && Holders(Dropped(m, pipe), k) == Holders(m, k) - {pipe}
    ensures |Dropped(m, pipe)| <= |m|
  {
    forall q | q in Dropped(m, pipe) ensures m[q] - {pipe} != {} {
      LastOne(m[q], pipe);
    }
    SubsetSize(Dropped(m, pipe).Keys, m.Keys);
  }

  // ------------------------------------------------------------------ who is subscribed

  datatype Change = Ins(key: Key, pipe: Pipe) | Rem(key: Key, pipe: Pipe) | Gone(pipe: Pipe)

  /** What a run of subscriptions, cancellations and removals of pipes leaves. */
  function SubsAfter(run: seq<Change>): Subs {
    if run == [] then map[] else
      var before, c := SubsAfter(run[..|run| - 1]), run[|run| - 1];
      match c
      case Ins(k, p) => Subscribed(before, k, p)
      case Rem(k, p) => Cancelled(before, k, p)
      case Gone(p) => Dropped(before, p)
  }

  /** Whether the last change about a prefix and a pipe was a subscription. */
  predicate Stays(run: seq<Change>, k: Key, p: Pipe) {
    run != [] &&
      var c := run[|run| - 1];
      c == Ins(k, p) || (c != Rem(k, p) && c != Gone(p) && Stays(run[..|run| - 1], k, p))
  }

  /** After every run a pipe holds a prefix iff it subscribed to it and neither cancelled nor left since. */
  lemma {:induction false} HeldAfter(run: seq<Change>, k: Key, p: Pipe)
    ensures Proper(SubsAfter(run))
    ensures p in Holders(SubsAfter(run), k) <==> Stays(run, k, p)
    decreases |run|
  {
    if run != [] {
      HeldAfter(run[..|run| - 1], k, p);
      var before, c := SubsAfter(run[..|run| - 1]), run[|run| - 1];
      if c.Gone? {
        DroppedHolders(before, c.pipe, k);
      } else if c.Rem? {
        assert Holders(Cancelled(before, c.key, c.pipe), c.key) == Holders(before, c.key) - {c.pipe};
      }
    }
  }

  /** At the end of the walk every set has been dealt with. */
  lemma AllSwept(s0: Store<Pipes>, at0: map<Key, Ptr>, s: Store<Pipes>, at: map<Key, Ptr>, pipe: Pipe)
    requires NoEmptySets(s0, at0) && Swept(s0, at0, s, at, pipe, [], 256)
    ensures NoEmptySets(s, at) && SubsOf(s, at) == Dropped(SubsOf(s0, at0), pipe)
    ensures |SubsOf(s, at)| <= |SubsOf(s0, at0)|
  {
    var m0 := SubsOf(s0, at0);
    SubsGet(s0, at0, []);
    DroppedHolders(m0, pipe, []);
    forall q
      ensures AsSet(Get(s, at, None, q)) == Holders(Dropped(m0, pipe), q)
      ensures Get(s, at, None, q) != Some({})
    {
      SubsGet(s0, at0, q);
      DroppedHolders(m0, pipe, q);
      assert Get(s, at, None, q) == Erase(Get(s0, at0, None, q), pipe) by {
        assert Before(q, [], 256);
      }
    }
    SubsAre(s, at, Dropped(m0, pipe));
  }

  lemma AllTold(s0: Store<Pipes>, at0: map<Key, Ptr>, pipe: Pipe, uniq: bool, calls: seq<Key>)
    requires NoEmptySets(s0, at0) && Told(s0, at0, pipe, uniq, [], 256, calls)
    ensures Lists(calls, Due(SubsOf(s0, at0), pipe, uniq))
  {
  }

  /** At the start of the walk none has. */
  lemma NoneSwept(s: Store<Pipes>, at: map<Key, Ptr>, pipe: Pipe, uniq: bool)
    ensures Swept(s, at, s, at, pipe, [], -1)
    ensures Told(s, at, pipe, uniq, [], -1, [])
  {
  }

  /** How many frames on the stack belong to nodes visited before. */
  ghost function Revisits(tip: Key, e: int, stack: seq<Frame>): nat {
    if e == -1 then |tip| else |stack|
  }

  /** How many children the topmost of these has yet to go through. */
  ghost function Ahead(tip: Key, e: int, stack: seq<Frame>): nat {
    var n := Revisits(tip, e, stack);
    if 0 < n <= |stack| && stack[n - 1].child < 256 then 256 - stack[n - 1].child else 0
  }

  lemma ChildBound(s: Store<Pipes>, at: map<Key, Ptr>, tip: Key, e: int, stack: seq<Frame>)
    requires Stacked(s, at, tip, e, stack)
    ensures forall i :: 0 <= i < |stack| && i < Revisits(tip, e, stack) ==> stack[i].child < 256
  {
  }

  /** The second position is closer to the end of the walk than the first. */
  ghost predicate Closer(at0: map<Key, Ptr>, tip: Key, e: int, stack: seq<Frame>,
                         tip': Key, e': int, stack': seq<Frame>)
  {
    var todo, todo' := |ToDo(at0, tip, e)|, |ToDo(at0, tip', e')|;
    var revisits, revisits' := Revisits(tip, e, stack), Revisits(tip', e', stack');
    var ahead, ahead' := Ahead(tip, e, stack), Ahead(tip', e', stack');
    || todo' < todo
    || (todo' == todo && revisits' < revisits)
    || (todo' == todo && revisits' == revisits && ahead' < ahead)
    || (todo' == todo && revisits' == revisits && ahead' == ahead && 0 <= e < 256 && !(0 <= e' < 256))
  }

  /** One time round the loop. */
  method Step(ghost s0: Store<Pipes>, ghost at0: map<Key, Ptr>, tree: Tree<Pipes>, pipe: Pipe, uniq: bool,
              ghost tip: Key, ghost e: int, stack: seq<Frame>, calls: seq<Key>, buff: Key)
    returns (stack': seq<Frame>, calls': seq<Key>, buff': Key, ghost tip': Key, ghost e': int)
    requires Walked(s0, at0, tree, pipe, tip, e) && Told(s0, at0, pipe, uniq, tip, e, calls) && Buffered(tip, buff)
    requires Stacked(tree.nodes, tree.at, tip, e, stack) && stack != []
    modifies tree
    ensures Walked(s0, at0, tree, pipe, tip', e') && Told(s0, at0, pipe, uniq, tip', e', calls')
    ensures Buffered(tip', buff')
    ensures Stacked(tree.nodes, tree.at, tip', e', stack')
    ensures Closer(at0, tip, e, stack, tip', e', stack')
  {
    hide Walked, ToDo, Told, Buffered, WaitsFor;
    var it := stack[|stack| - 1];
    var rest := stack[..|stack| - 1];
    assert rest + [it] == stack;
    ChildBound(tree.nodes, tree.at, tip, e, stack);
    if !it.processed {
      TopVisits(tree.nodes, tree.at, tip, e, rest, it);
      stack', calls', buff', tip', e' := PreVisit(s0, at0, tree, pipe, uniq, tip, e, rest, it, calls, buff);
    } else {
      TopWaits(tree.nodes, tree.at, tip, e, rest, it);
      calls', buff' := calls, buff;
      stack', tip', e' := PostVisit(s0, at0, tree, pipe, uniq, tip, rest, it, calls, buff);
    }
    SubsetSize(ToDo(at0, tip', e'), ToDo(at0, tip, e));
  }

  /**
   Removes a pipe from the trie. The callback is made once for every prefix the pipe was
   subscribed to, or, with `uniq`, once for every prefix nobody is subscribed to any more.
   */
  method RmPipe(trie: MTrie, pipe: Pipe, uniq: bool) returns (calls: seq<Key>)
    requires trie.Valid()
    modifies trie.tree
    ensures trie.Valid()
    ensures trie.Subs() == Dropped(old(trie.Subs()), pipe)
    ensures Lists(calls, Due(old(trie.Subs()), pipe, uniq))
  {
    hide Good, Shape, Swept, NoEmptySets, ToDo, Told, WaitsFor;
    var tree := trie.tree;
    ghost var s0, at0 := tree.nodes, tree.at;
    ghost var tip: Key, e := [], -1;
    var buff: Key := [];
    var stack := [Frame(tree.root, 0, 0, 0, 0, false)];
    calls := [];
    NoneSwept(s0, at0, pipe, uniq);
    NodeOf(tree.nodes, tree.at, tree.path, None, {}, {}, []);
    Weaken(tree.nodes, tree.at, tree.path, None, {}, {}, Loose(tree.at, [], -1), Bare(tree.at, []));
    while stack != []
      invariant Walked(s0, at0, tree, pipe, tip, e) && Told(s0, at0, pipe, uniq, tip, e, calls) && Buffered(tip, buff)
      invariant Stacked(tree.nodes, tree.at, tip, e, stack)
      decreases |ToDo(at0, tip, e)|, Revisits(tip, e, stack), Ahead(tip, e, stack), if 0 <= e < 256 then 1 else 0
    {
      stack, calls, buff, tip, e := Step(s0, at0, tree, pipe, uniq, tip, e, stack, calls, buff);
    }
    AllSwept(s0, at0, tree.nodes, tree.at, pipe);
    AllTold(s0, at0, pipe, uniq, calls);
    Weaken(tree.nodes, tree.at, tree.path, None, Loose(tree.at, [], 256), Bare(tree.at, []), {}, {});
  }
}
