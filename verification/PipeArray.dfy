/** `array_t`: an array of pipes in which every pipe knows its own position. */
module PipeArrays {
  import opened MTries

  /** The pipes in a stretch of an array. */
  ghost function Elements(s: seq<Pipe>): set<Pipe> {
    set p | p in s
  }

  function Swapped(s: seq<Pipe>, i: nat, j: nat): seq<Pipe>
    requires i < |s| && j < |s|
  {
    s[i := s[j]][j := s[i]]
  }

  /** Without position `i`, into which the last pipe moves. */
  function Erased(s: seq<Pipe>, i: nat): seq<Pipe>
    requires i < |s|
  {
    s[i := s[|s| - 1]][..|s| - 1]
  }

  ghost predicate Distinct(s: seq<Pipe>) {
    forall i, j :: 0 <= i < j < |s| ==> s[i] != s[j]
  }

  lemma DistinctNone()
    ensures Distinct([])
  {
  }

  lemma SwappedDistinct(s: seq<Pipe>, i: nat, j: nat)
    requires i < |s| && j < |s| && Distinct(s)
    ensures Distinct(Swapped(s, i, j)) && Elements(Swapped(s, i, j)) == Elements(s)
  {
    var t := Swapped(s, i, j);
    assert forall k :: 0 <= k < |s| ==> t[k] == s[if k == i then j else if k == j then i else k];
    assert forall k :: 0 <= k < |s| ==> s[k] == t[if k == i then j else if k == j then i else k];
  }

  /** A pipe in an array without repetitions is in a stretch of it iff its position is. */
  lemma Position(s: seq<Pipe>, i: nat, n: nat)
    requires Distinct(s) && i < |s| && n <= |s|
    ensures s[i] in s[..n] <==> i < n
  {
  }

  lemma SwappedSymmetric(s: seq<Pipe>, i: nat, j: nat)
    requires i < |s| && j < |s|
    ensures Swapped(s, i, j) == Swapped(s, j, i)
  {
  }

  /** A swap of two positions on the same side of a border does not change what is on either side. */
  lemma SwappedWithin(s: seq<Pipe>, i: nat, j: nat, n: nat)
    requires i < |s| && j < |s| && n <= |s| && (i < n <==> j < n)
    ensures Elements(Swapped(s, i, j)[..n]) == Elements(s[..n])
  {
    var t := Swapped(s, i, j);
    assert forall k :: 0 <= k < n ==> t[..n][k] == s[..n][if k == i then j else if k == j then i else k];
    assert forall k :: 0 <= k < n ==> s[..n][k] == t[..n][if k == i then j else if k == j then i else k];
  }

  /** Moving a pipe to the last position of a stretch and shortening the stretch takes it out. */
  lemma TakeOut(s: seq<Pipe>, i: nat, n: nat)
    requires i < n <= |s| && Distinct(s)
    ensures Elements(Swapped(s, i, n - 1)[..n - 1]) == Elements(s[..n]) - {s[i]}
  {
    var t := Swapped(s, i, n - 1);
    forall p ensures p in Elements(t[..n - 1]) <==> p in Elements(s[..n]) - {s[i]} {
      if p in Elements(s[..n]) - {s[i]} {
        var k :| 0 <= k < n && s[..n][k] == p;
        assert t[..n - 1][if k == n - 1 then i else k] == p;
      }
      if p in t[..n - 1] {
        var k :| 0 <= k < n - 1 && t[..n - 1][k] == p;
        assert s[..n][if k == i then n - 1 else k] == p;
      }
    }
  }

  /** Moving a pipe to the position after a stretch and lengthening the stretch brings it in. */
  lemma BringIn(s: seq<Pipe>, i: nat, n: nat)
    requires n <= i < |s|
    ensures Elements(Swapped(s, i, n)[..n + 1]) == Elements(s[..n]) + {s[i]}
  {
    var t := Swapped(s, i, n);
    assert t[..n + 1] == s[..n] + [s[i]];
  }

  /** A pipe added at the end and swapped to the position after a stretch lengthens the stretch. */
  lemma Entered(was: seq<Pipe>, p: Pipe, n: nat)
    requires Distinct(was + [p]) && n <= |was|
    ensures var t := Swapped(was + [p], n, |was|);
      && |t| == |was| + 1 && Distinct(t) && Elements(t) == Elements(was) + {p}
      && Elements(t[..n + 1]) == Elements(was[..n]) + {p}
      && forall m | 0 <= m <= n :: t[..m] == was[..m]
  {
    var s := was + [p];
    SwappedDistinct(s, n, |was|);
    SwappedSymmetric(s, n, |was|);
    BringIn(s, |was|, n);
    assert s[..n] == was[..n] && Elements(s) == Elements(was) + {p};
  }

  class PipeArray {
    var items: seq<Pipe>
    var index: map<Pipe, nat>       // the `_array_index` of every pipe that ever was in the array

    /** Every pipe in the array is at the position it says. */
    ghost predicate Valid()
      reads this
    {
      forall i :: 0 <= i < |items| ==> items[i] in index && index[items[i]] == i
    }

    lemma ValidDistinct()
      requires Valid()
      ensures Distinct(items)
    {
    }

    constructor ()
      ensures Valid() && items == []
    {
      items, index := [], map[];
    }

    method PushBack(p: Pipe)
      requires Valid() && p !in items
      modifies this
      ensures Valid() && items == old(items) + [p]
    {
      index := index[p := |items|];
      items := items + [p];
    }

    method Swap(i: nat, j: nat)
      requires Valid() && i < |items| && j < |items|
      modifies this
      ensures Valid() && items == Swapped(old(items), i, j)
    {
      index := index[items[i] := j];
      index := index[items[j] := i];
      items := Swapped(items, i, j);
      assert old(items)[i] == old(items)[j] ==> i == j by {
        assert old(index[items[i]]) == i && old(index[items[j]]) == j;
      }
    }

    /** Takes a pipe out; the last pipe takes its place. */
    method Erase(p: Pipe)
      requires Valid() && p in items
      modifies this
      ensures Valid() && items == Erased(old(items), old(Index(p)))
      ensures |items| == |old(items)| - 1 && Elements(items) == Elements(old(items)) - {p}
      ensures forall m :: 0 <= m <= |items| && p !in old(items)[..m] ==> items[..m] == old(items)[..m]
    {
      ValidDistinct();
      var i := index[p];
      var last := items[|items| - 1];
      index := index[last := i];
      items := items[i := last];
      items := items[..|items| - 1];
      TakeOut(old(items), i, |old(items)|);
      assert items == Swapped(old(items), i, |old(items)| - 1)[..|old(items)| - 1];
      assert old(items)[..|old(items)|] == old(items);
      forall m | 0 <= m <= |items| && p !in old(items)[..m]
        ensures items[..m] == old(items)[..m]
      {
        Position(old(items), i, m);
      }
    }

    /** Moves a pipe out of the stretch of the first `n`, by a swap with the last of them. */
    method Leave(p: Pipe, n: nat) returns (n': nat)
      requires Valid() && p in items && n <= |items|
      modifies this
      ensures Valid() && |items| == |old(items)| && Elements(items) == Elements(old(items))
      ensures n' == if p in old(items)[..n] then n - 1 else n
      ensures p in items && (n' < n ==> items[n'] == p)
      ensures p !in items[..n'] && Elements(items[..n']) == Elements(old(items)[..n]) - {p}
      ensures forall m :: n <= m <= |items| ==> Elements(items[..m]) == Elements(old(items)[..m])
      ensures forall m :: 0 <= m <= n' && p !in old(items)[..m] ==> Elements(items[..m]) == Elements(old(items)[..m])
    {
      ValidDistinct();
      var i := index[p];
      ghost var s := items;
      Position(s, i, n);
      n' := n;
      if i < n {
        SwappedDistinct(s, i, n - 1);
        TakeOut(s, i, n);
        forall m | n <= m <= |s| ensures Elements(Swapped(s, i, n - 1)[..m]) == Elements(s[..m]) {
          SwappedWithin(s, i, n - 1, m);
        }
        forall m | 0 <= m <= n - 1 && p !in s[..m] ensures Elements(Swapped(s, i, n - 1)[..m]) == Elements(s[..m]) {
          Position(s, i, m);
          SwappedWithin(s, i, n - 1, m);
        }
        Swap(i, n - 1);
        n' := n - 1;
        assert p !in Elements(items[..n']);
        assert p == items[n'];
      }
    }

    /** Moves a pipe into the stretch of the first `n`, by a swap with the pipe after it. */
    method Join(p: Pipe, n: nat)
      requires Valid() && n <= |items| && p in items && p !in items[..n]
      modifies this
      ensures Valid() && |items| == |old(items)| && Elements(items) == Elements(old(items))
      ensures n < |items| && items[n] == p && Elements(items[..n + 1]) == Elements(old(items)[..n]) + {p}
      ensures items == Swapped(old(items), old(Index(p)), n)
      ensures forall m :: 0 <= m <= n ==> Elements(items[..m]) == Elements(old(items)[..m])
      ensures forall m :: n < m <= |items| && p in old(items)[..m] ==> Elements(items[..m]) == Elements(old(items)[..m])
    {
      ValidDistinct();
      var i := index[p];
      ghost var s := items;
      Position(s, i, n);
      SwappedDistinct(s, i, n);
      BringIn(s, i, n);
      forall m | 0 <= m <= n ensures Elements(Swapped(s, i, n)[..m]) == Elements(s[..m]) {
        SwappedWithin(s, i, n, m);
      }
      forall m | n < m <= |s| && p in s[..m] ensures Elements(Swapped(s, i, n)[..m]) == Elements(s[..m]) {
        Position(s, i, m);
        SwappedWithin(s, i, n, m);
      }
      Swap(i, n);
    }

    /** A pipe that has left the array may still claim a position in it, but is not found there. */
    predicate Has(p: Pipe)
      requires Valid()
      reads this
      ensures Has(p) <==> p in items
    {
      p in index && index[p] < |items| && items[index[p]] == p
    }

    function Index(p: Pipe): (i: nat)
      requires Valid() && p in items
      reads this
      ensures i < |items| && items[i] == p
    {
      index[p]
    }
  }
}
