/**
 `shared_message_memory_allocator` and its use by the v2 decoder: messages whose body lies in the
 receive buffer keep the buffer alive, each with a content slot behind the buffer.
 */
module SharedBuffers {
  import opened Bytes

  /** The largest message that is stored in itself. */
  const MAX_VSM_SIZE := 64 - (8 + 3 + 16 + 4)

  type Ptr = nat

  /** A buffer: its counter, the messages in it that are not closed yet, and how often it was freed. */
  datatype Buffer = Buffer(count: nat, messages: nat, frees: nat)

  ghost predicate BufferOk(b: Buffer, held: bool) {
    if b.frees == 0 then b.count == b.messages + (if held then 1 else 0) && b.count > 0
    else b.frees == 1 && b.messages == 0 && !held
  }

  /** The part of the buffer that a message lies in. */
  datatype Region = Region(start: nat, size: nat)

  /** Regions one after the other, below `end`, none too small to be counted. */
  ghost predicate Packed(rs: seq<Region>, end: nat) {
    rs == [] || (
      var last := rs[|rs| - 1];
      MAX_VSM_SIZE <= last.size && last.start + last.size <= end && Packed(rs[..|rs| - 1], last.start))
  }

  lemma {:induction false} PackedCount(rs: seq<Region>, end: nat)
    requires Packed(rs, end)
    ensures |rs| * MAX_VSM_SIZE <= end
  {
    if rs != [] {
      PackedCount(rs[..|rs| - 1], rs[|rs| - 1].start);
    }
  }

  /** There are slots for all of them. */
  lemma PackedSlots(rs: seq<Region>, end: nat, max: nat)
    requires Packed(rs, end) && end <= max
    ensures |rs| <= (max + MAX_VSM_SIZE - 1) / MAX_VSM_SIZE
  {
    PackedCount(rs, end);
  }

  /** No two messages share a byte. */
  lemma {:induction false} PackedDisjoint(rs: seq<Region>, end: nat, i: nat, j: nat)
    requires Packed(rs, end) && i < j < |rs|
    ensures rs[i].start + rs[i].size <= rs[j].start && rs[j].start + rs[j].size <= end
  {
    var n := |rs| - 1;
    if j < n {
      PackedDisjoint(rs[..n], rs[n].start, i, j);
      assert rs[..n][i] == rs[i] && rs[..n][j] == rs[j];
    } else {
      PackedWithin(rs[..n], rs[n].start, i);
      assert rs[..n][i] == rs[i];
    }
  }

  lemma {:induction false} PackedWithin(rs: seq<Region>, end: nat, i: nat)
    requires Packed(rs, end) && i < |rs|
    ensures rs[i].start + rs[i].size <= end
  {
    var n := |rs| - 1;
    if i < n {
      PackedWithin(rs[..n], rs[n].start, i);
      assert rs[..n][i] == rs[i];
    }
  }

  class Allocator {
    const maxSize: nat
    const maxCounters: nat
    var buf: Option<Ptr>                // the buffer in use
    var bufSize: nat
    var content: nat                    // the next content slot
    var buffers: map<Ptr, Buffer>       // every buffer ever allocated
    ghost var pos: nat                  // how far the decoder has come in the buffer in use
    ghost var regions: seq<Region>      // the messages that were placed in it

    ghost predicate Valid()
      reads this
    {
      && maxCounters == (maxSize + MAX_VSM_SIZE - 1) / MAX_VSM_SIZE
      && (forall b | b in buffers :: BufferOk(buffers[b], buf == Some(b)))
      && (buf.Some? ==>
            && buf.value in buffers
            && pos <= bufSize == maxSize && Packed(regions, pos)
            && content == |regions| && buffers[buf.value].messages <= content)
    }

    constructor (bufsize: nat)
      ensures Valid() && buf == None && buffers == map[] && maxSize == bufsize
    {
      maxSize, maxCounters := bufsize, (bufsize + MAX_VSM_SIZE - 1) / MAX_VSM_SIZE;
      buf, bufSize, content, buffers := None, 0, 0, map[];
      pos, regions := 0, [];
    }

    /** The content slots always suffice. */
    lemma SlotsSuffice()
      requires Valid() && buf.Some?
      ensures content <= maxCounters
    {
      PackedSlots(regions, pos, maxSize);
    }

    /** Takes one off the counter of a buffer; false if it drops to zero. */
    method Sub(b: Ptr) returns (nonzero: bool)
      requires b in buffers && buffers[b].count > 0
      modifies this`buffers
      ensures buffers == old(buffers)[b := old(buffers)[b].(count := old(buffers)[b].count - 1)]
      ensures nonzero <==> buffers[b].count != 0
    {
      buffers := buffers[b := buffers[b].(count := buffers[b].count - 1)];
      nonzero := buffers[b].count != 0;
    }

    /** A buffer no message lies in: the one in use if that is free of messages, else a new one. */
    method Allocate()
      requires Valid()
      modifies this
      ensures Valid() && buf.Some? && buffers[buf.value] == Buffer(1, 0, 0)
      ensures bufSize == maxSize && content == 0 && pos == 0 && buffers.Keys == old(buffers).Keys + {buf.value}
      ensures old(buf.Some? && buffers[buf.value].messages == 0) ==> buf == old(buf) && buffers == old(buffers)
      ensures !old(buf.Some? && buffers[buf.value].messages == 0) ==> buf.value !in old(buffers)
      ensures forall b | b in old(buffers) && Some(b) != buf ::
                && b in buffers
                && buffers[b].messages == old(buffers)[b].messages && buffers[b].frees == old(buffers)[b].frees
    {
      if buf.Some? {
        var inUse := Sub(buf.value);
        if inUse {
          Clear();
        }
      }
      if buf.None? {
        var b := NewBuffer();
        buf := Some(b);
      } else {
        buffers := buffers[buf.value := buffers[buf.value].(count := 1)];
      }
      bufSize, content := maxSize, 0;
      pos, regions := 0, [];
    }

    /** `malloc`, with the counter at one. */
    method NewBuffer() returns (b: Ptr)
      modifies this`buffers
      ensures b !in old(buffers) && buffers == old(buffers)[b := Buffer(1, 0, 0)]
    {
      b := 0;
      var left := buffers.Keys;
      while b in buffers
        invariant left <= buffers.Keys && forall a | a in buffers && a >= b :: a in left
        decreases |left|
      {
        left := left - {b};
        b := b + 1;
      }
      buffers := buffers[b := Buffer(1, 0, 0)];
    }

    method Clear()
      modifies this`buf, this`bufSize, this`content
      ensures buf == None && bufSize == 0 && content == 0
    {
      buf, bufSize, content := None, 0, 0;
    }

    method Free(b: Ptr)
      requires b in buffers && buffers[b].frees == 0
      modifies this`buffers
      ensures buffers == old(buffers)[b := old(buffers)[b].(frees := 1)]
    {
      buffers := buffers[b := buffers[b].(frees := buffers[b].frees + 1)];
    }

    /** The decoder gives the buffer up; it is freed now if no message lies in it. */
    method Deallocate()
      requires Valid()
      modifies this
      ensures Valid() && buf == None && buffers.Keys == old(buffers).Keys
      ensures forall b | b in buffers ::
                && buffers[b].messages == old(buffers)[b].messages
                && (buffers[b].frees == old(buffers)[b].frees +
                      if old(buf) == Some(b) && buffers[b].messages == 0 then 1 else 0)
    {
      if buf.Some? {
        var nonzero := Sub(buf.value);
        if !nonzero {
          Free(buf.value);
        }
      }
      Clear();
    }

    /**
     A message of the given size starts at `readPos` in the buffer. It is left there if it fits and
     is not small enough to be stored in itself; its slot is one of those behind the buffer.
     */
    method SizeReady(zeroCopy: bool, readPos: nat, size: nat) returns (placed: bool)
      requires Valid() && buf.Some? && pos <= readPos <= bufSize
      modifies this
      ensures Valid() && buf == old(buf)
      ensures placed <==> zeroCopy && MAX_VSM_SIZE <= size <= bufSize - readPos
      ensures placed ==> old(content) < maxCounters && regions == old(regions) + [Region(readPos, size)]
      ensures placed ==>
                var was := old(buffers)[buf.value];
                buffers == old(buffers)[buf.value := Buffer(was.count + 1, was.messages + 1, 0)]
      ensures !placed ==> buffers == old(buffers) && regions == old(regions)
      ensures pos == if placed then readPos + size else readPos
    {
      placed := false;
      if !zeroCopy || size > bufSize - readPos {
        pos := readPos;
        PackedLonger(regions, old(pos), pos);
        return;
      }
      PackedLonger(regions, pos, readPos);
      if size < MAX_VSM_SIZE {
        pos := readPos;
        return;
      }
      placed := true;
      ghost var rs := regions + [Region(readPos, size)];
      PackedSnoc(regions, readPos, size);
      PackedSlots(rs, readPos + size, maxSize);
      hide Packed;
      pos, regions := readPos + size, rs;
      content := content + 1;
      var b := buffers[buf.value];
      buffers := buffers[buf.value := b.(count := b.count + 1, messages := b.messages + 1)];
    }

    /** The last reference to a message in a buffer is given up. */
    method CallDecRef(b: Ptr)
      requires Valid() && b in buffers && buffers[b].messages > 0
      modifies this`buffers
      ensures Valid() && buffers.Keys == old(buffers).Keys
      ensures buffers[b].messages == old(buffers)[b].messages - 1
      ensures buffers[b].frees == 1 <==> buffers[b].messages == 0 && buf != Some(b)
      ensures forall a | a in buffers && a != b :: buffers[a] == old(buffers)[a]
    {
      var nonzero := Sub(b);
      buffers := buffers[b := buffers[b].(messages := buffers[b].messages - 1)];
      if !nonzero {
        Free(b);
      }
    }

    /** When the decoder is gone and all messages are closed, every buffer has been freed once. */
    lemma NothingLeaks()
      requires Valid() && buf == None && forall b | b in buffers :: buffers[b].messages == 0
      ensures forall b | b in buffers :: buffers[b].frees == 1
    {
    }
  }

  lemma PackedLonger(rs: seq<Region>, end: nat, end': nat)
    requires Packed(rs, end) && end <= end'
    ensures Packed(rs, end')
  {
  }

  lemma PackedSnoc(rs: seq<Region>, start: nat, size: nat)
    requires Packed(rs, start) && MAX_VSM_SIZE <= size
    ensures Packed(rs + [Region(start, size)], start + size)
  {
  }
}
