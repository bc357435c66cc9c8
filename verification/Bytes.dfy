/** Bytes, byte strings and the prefix order on them. */
module Bytes {
  /** `unsigned char`. */
  type Byte = b: int | 0 <= b < 256

  type Key = seq<Byte>

  datatype Option<+T> = None | Some(value: T)

  /** `k` followed by the byte `c`. */
  function Snoc(k: Key, c: Byte): Key {
    k + [c]
  }

  lemma SnocInjective(k: Key, c: Byte, q: Key, d: Byte)
    ensures Snoc(k, c) == Snoc(q, d) ==> k == q && c == d
  {
    if Snoc(k, c) == Snoc(q, d) {
      assert k == Snoc(k, c)[..|k|] && q == Snoc(q, d)[..|q|];
      assert c == Snoc(k, c)[|k|] && d == Snoc(q, d)[|q|];
    }
  }

  lemma SnocPrefix(b: Key, k: Key, c: Byte)
    requires |k| < |b|
    ensures b[..|k|] == k && b[|k|] == c <==> b[..|k| + 1] == Snoc(k, c)
  {
  }

  /** The calls made are for exactly these keys, once each. */
  ghost predicate Lists(calls: seq<Key>, keys: set<Key>) {
    && (forall i, j :: 0 <= i < j < |calls| ==> calls[i] != calls[j])
    && (forall q :: q in keys <==> q in calls)
  }

  lemma ListsAppend(calls: seq<Key>, keys: set<Key>, more: seq<Key>, keys': set<Key>)
    requires Lists(calls, keys) && Lists(more, keys') && keys !! keys'
    ensures Lists(calls + more, keys + keys')
  {
    forall a, b | 0 <= a < |calls| && 0 <= b < |more|
      ensures calls[a] != more[b]
    {
      assert calls[a] in keys && more[b] in keys';
    }
  }

  /** The bytes of a reallocated buffer that existed before are kept; the others are arbitrary. */
  function Realloc(b: Key, size: nat): (r: Key)
    ensures |r| == size && forall i :: 0 <= i < size && i < |b| ==> r[i] == b[i]
  {
    if size <= |b| then b[..size] else b + seq(size - |b|, _ => 0)
  }

  lemma SubsetSize<T>(a: set<T>, b: set<T>)
    requires a <= b
    ensures |a| <= |b| && (a != b ==> |a| < |b|)
  {
    assert b == a + (b - a);
    if a != b {
      var x :| x in b - a;
    }
  }
}
