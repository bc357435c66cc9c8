/**
 `ypipe_t`: the queue between one writer and one reader. The module gives the queue its abstract
 form, `Queue`, and proves that the pointer-based queue behaves like it.
 */
module YPipes {
  import opened Bytes

  /**
   A queue as its two users see it: the items the reader can get, the complete items not flushed
   yet, the items of an incomplete message, and whether the reader is asleep.
   */
  datatype Queue<+T> = Queue(pub: seq<T>, pend: seq<T>, part: seq<T>, asleep: bool)

  function Empty<T>(): Queue<T> {
    Queue([], [], [], false)
  }

  function Written<T>(q: Queue<T>, x: T, incomplete: bool): Queue<T> {
    if incomplete then q.(part := q.part + [x]) else q.(pend := q.pend + q.part + [x], part := [])
  }

  function Unwritten<T>(q: Queue<T>): Queue<T> {
    if q.part == [] then q else q.(part := q.part[..|q.part| - 1])
  }

  /** Everything incomplete is taken back. */
  function RolledBack<T>(q: Queue<T>): Queue<T> {
    q.(part := [])
  }

  function Flushed<T>(q: Queue<T>): Queue<T> {
    if q.pend == [] then q else q.(pub := q.pub + q.pend, pend := [], asleep := false)
  }

  /** `flush` reports that the reader has to be woken up. */
  predicate WakesReader<T(==)>(q: Queue<T>) {
    q.pend != [] && q.asleep
  }

  /** A failed attempt to read puts the reader to sleep. */
  function Checked<T>(q: Queue<T>): Queue<T> {
    if q.pub == [] then q.(asleep := true) else q
  }

  function Taken<T>(q: Queue<T>): Queue<T> {
    if q.pub == [] then q.(asleep := true) else q.(pub := q.pub[1..])
  }

  /** With nothing to flush, `flush` reports success to the writer although the reader sleeps. */
  lemma FlushOverSleep()
    ensures var q: Queue<int> := Checked(Empty()); q.asleep && !WakesReader(q) && Flushed(q) == q
  {
  }

  // ------------------------------------------------------------------ first in, first out

  datatype Op<+T> = Write(item: T, incomplete: bool) | Unwrite | Flush | CheckRead | Read

  function Next<T>(q: Queue<T>, op: Op<T>): Queue<T> {
    match op
    case Write(x, incomplete) => Written(q, x, incomplete)
    case Unwrite => Unwritten(q)
    case Flush => Flushed(q)
    case CheckRead => Checked(q)
    case Read => Taken(q)
  }

  /** What an operation hands to the reader. */
  function Handed<T(==)>(q: Queue<T>, op: Op<T>): seq<T> {
    if op.Read? && q.pub != [] then [q.pub[0]] else []
  }

  /** What the writer wrote: the items of complete messages, and those of an open one. */
  datatype Log<+T> = Log(done: seq<T>, open: seq<T>)

  function Logged<T>(l: Log<T>, op: Op<T>): Log<T> {
    match op
    case Write(x, true) => l.(open := l.open + [x])
    case Write(x, false) => Log(l.done + l.open + [x], [])
    case Unwrite => if |l.open| == 0 then l else l.(open := l.open[..|l.open| - 1])
    case _ => l
  }

  /** What a run of operations leads to, with all that was read in it. */
  ghost predicate Reaches<T>(q: Queue<T>, l: Log<T>, ops: seq<Op<T>>, got: seq<T>, q': Queue<T>, l': Log<T>)
    decreases |ops|
  {
    if ops == [] then q' == q && l' == l && got == [] else
      && Handed(q, ops[0]) <= got
      && Reaches(Next(q, ops[0]), Logged(l, ops[0]), ops[1..], got[|Handed(q, ops[0])|..], q', l')
  }

  /** The reader has had `got`: the rest of the complete messages is in the queue, in order. */
  ghost predicate Fifo<T>(q: Queue<T>, l: Log<T>, got: seq<T>) {
    got + q.pub + q.pend == l.done && q.part == l.open
  }

  lemma FifoStep<T>(q: Queue<T>, l: Log<T>, got: seq<T>, op: Op<T>)
    requires Fifo(q, l, got)
    ensures Fifo(Next(q, op), Logged(l, op), got + Handed(q, op))
  {
    match op
    case Write(x, true) =>
    case Write(x, false) =>
      assert got + q.pub + (q.pend + q.part + [x]) == got + q.pub + q.pend + q.part + [x];
    case Unwrite =>
    case Flush =>
      assert got + (q.pub + q.pend) + [] == got + q.pub + q.pend;
    case CheckRead =>
    case Read =>
      if q.pub != [] {
        assert q.pub == [q.pub[0]] + q.pub[1..];
        assert got + q.pub == got + [q.pub[0]] + q.pub[1..];
      }
  }

  lemma {:induction false} RunFifo<T>(q: Queue<T>, l: Log<T>, had: seq<T>, ops: seq<Op<T>>, got: seq<T>,
                                      q': Queue<T>, l': Log<T>)
    requires Fifo(q, l, had) && Reaches(q, l, ops, got, q', l')
    ensures Fifo(q', l', had + got)
    decreases |ops|
  {
    if ops == [] {
      assert had + got == had;
    } else {
      var h := Handed(q, ops[0]);
      FifoStep(q, l, had, ops[0]);
      hide Fifo, Next, Logged, Handed;
      RunFifo(Next(q, ops[0]), Logged(l, ops[0]), had + h, ops[1..], got[|h|..], q', l');
      assert had + h + got[|h|..] == had + got;
    }
  }

  /**
   In every run of writes, take-backs, flushes and reads: the reader gets the items of complete
   messages in the order of writing, and after a flush it can get all that are left of them.
   */
  lemma FirstInFirstOut<T>(ops: seq<Op<T>>, got: seq<T>, q: Queue<T>, l: Log<T>)
    requires Reaches(Empty(), Log([], []), ops, got, q, l)
    ensures got + q.pub + q.pend == l.done && q.part == l.open
    ensures got + Flushed(q).pub == l.done && Flushed(q).pend == []
  {
    RunFifo(Empty(), Log([], []), [], ops, got, q, l);
    assert [] + got == got;
    assert got + (q.pub + q.pend) == got + q.pub + q.pend && q.pub + [] == q.pub;
  }

  /**
   The queue as it is implemented. Positions count the items ever written. `w` and `f` are the
   writer's: the first item not flushed, and the first that belongs to an incomplete message.
   `r` is the reader's: the first item not prefetched. `c` is shared: the same as `w`, or NULL
   when the reader sleeps.
   */
  class YPipe<T(==)> {
    var items: seq<T>
    var front: nat
    var w: nat
    var f: nat
    var r: Option<nat>
    var c: Option<nat>

    ghost predicate Valid()
      reads this
    {
      && front <= w <= f <= |items|
      && (c.Some? ==> c.value == w)
      && (c.None? ==> front == w)
      && (r.Some? ==> front <= r.value <= w)
    }

    ghost function View(): Queue<T>
      requires Valid()
      reads this
    {
      Queue(items[front..w], items[w..f], items[f..], c.None?)
    }

    constructor ()
      ensures Valid() && View() == Empty()
    {
      items, front, w, f, r, c := [], 0, 0, 0, Some(0), Some(0);
    }

    method Write(x: T, incomplete: bool)
      requires Valid()
      modifies this
      ensures Valid() && View() == Written(old(View()), x, incomplete)
    {
      items := items + [x];
      if !incomplete {
        f := |items|;
      }
    }

    /** Takes back the last item of an incomplete message, if there is one. */
    method Unwrite() returns (x: Option<T>)
      requires Valid()
      modifies this
      ensures Valid() && View() == Unwritten(old(View()))
      ensures x == if old(View()).part == [] then None else Some(old(View()).part[|old(View()).part| - 1])
    {
      if f == |items| {
        return None;
      }
      x := Some(items[|items| - 1]);
      items := items[..|items| - 1];
    }

    /** The compare-and-swap on `c`. */
    method Cas(expected: Option<nat>, value: Option<nat>) returns (was: Option<nat>)
      modifies this`c
      ensures was == old(c)
      ensures c == if old(c) == expected then value else old(c)
    {
      was := c;
      if c == expected {
        c := value;
      }
    }

    /** False iff the reader was asleep, in which case the caller has to wake it up. */
    method Flush() returns (ok: bool)
      requires Valid()
      modifies this
      ensures Valid() && View() == Flushed(old(View()))
      ensures ok <==> !WakesReader(old(View()))
    {
      if w == f {
        return true;
      }
      var was := Cas(Some(w), Some(f));
      if was != Some(w) {
        c := Some(f);
        w := f;
        return false;
      }
      w := f;
      return true;
    }

    method CheckRead() returns (ok: bool)
      requires Valid()
      modifies this`r, this`c
      ensures Valid() && View() == Checked(old(View()))
      ensures ok <==> old(View()).pub != []
      ensures ok ==> r.Some? && front < r.value
    {
      if r.Some? && front != r.value {
        return true;
      }
      r := Cas(Some(front), None);
      if r == Some(front) || r.None? {
        return false;
      }
      return true;
    }

    method Read() returns (x: Option<T>)
      requires Valid()
      modifies this
      ensures Valid() && View() == Taken(old(View()))
      ensures x == if old(View()).pub == [] then None else Some(old(View()).pub[0])
    {
      var ok := CheckRead();
      if !ok {
        return None;
      }
      x := Some(items[front]);
      front := front + 1;
    }

    /** The first item, which the reader knows to be there. */
    method Probe() returns (x: T)
      requires Valid() && View().pub != []
      modifies this`r, this`c
      ensures Valid() && View() == old(View()) && x == View().pub[0]
    {
      var ok := CheckRead();
      assert ok;
      x := items[front];
    }

    /** Reads and discards everything there is to read. */
    method Drain()
      requires Valid()
      modifies this
      ensures Valid() && View() == old(View()).(pub := [], asleep := true)
    {
      var x := Read();
      while x.Some?
        invariant Valid()
        invariant View().(pub := [], asleep := true) == old(View()).(pub := [], asleep := true)
        invariant x.None? ==> View().pub == [] && View().asleep
        decreases |View().pub|, if x.Some? then 1 else 0
      {
        x := Read();
      }
    }
  }
}
