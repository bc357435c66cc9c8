/**
 The v2 decoder over its shared receive buffer: bytes are read into the buffer, and a message that
 fits stays there. It decodes what the copying decoder decodes, and it meets what the allocator
 needs: messages in a buffer do not overlap, no message handed out is overwritten, and there are
 enough content slots, for every stream and every way of filling the buffers.
 */
module ZeroCopy {
  import opened Bytes
  import opened Wire
  import opened Zmtp
  import opened ZmtpDecoder
  import opened SharedBuffers

  /** Where the body of the message in progress is: nowhere yet, in storage of its own, or in a buffer. */
  datatype Body = NoBody | OwnBody(bytes: Key) | InPlace(buf: Ptr, start: nat, size: nat)

  /** A message handed out that lies in a buffer, with the body it had then. */
  datatype Placed = Placed(buf: Ptr, start: nat, body: Key)

  type Memory = map<Ptr, Key>

  /** The decoder: `tmp` collects a header, `live` are the messages handed out and not closed that lie in buffers. */
  datatype State = State(step: DecoderStep, toRead: nat, tmp: Key, more: bool, command: bool, body: Body,
                         mem: Memory, live: map<nat, Placed>, next: nat)

  /** The allocator as the decoder sees it. */
  datatype Arena = Arena(buffers: map<Ptr, Buffer>, cur: Ptr, pos: nat, size: nat)

  /** What has been read of the body or of the header. */
  function Collected(z: State): Key {
    match z.body
    case NoBody => z.tmp
    case OwnBody(bytes) => bytes
    case InPlace(b, start, size) =>
      if b in z.mem && z.toRead <= size && start + size <= |z.mem[b]| then
        z.mem[b][start..start + size - z.toRead]
      else []
  }

  /** The state of the copying decoder that this one is in. */
  function View(z: State): Dec {
    Dec(z.step, z.toRead, Collected(z), z.more, z.command)
  }

  // ------------------------------------------------------------------ what is kept

  /** A message in a buffer starts behind its header, so it is never as large as the buffer. */
  ghost predicate BodyOk(z: State, size: nat) {
    && (z.step == MessageReady <==> !z.body.NoBody?)
    && (z.body.InPlace? ==>
          && z.body.buf in z.mem && |z.mem[z.body.buf]| == size
          && 0 < z.body.start && z.body.start + z.body.size <= size && z.toRead <= z.body.size)
  }

  ghost predicate MemoryOk(mem: Memory, a: Arena) {
    mem.Keys == a.buffers.Keys && a.cur in mem && forall b | b in mem :: |mem[b]| == a.size
  }

  function End(m: Placed): nat {
    m.start + |m.body|
  }

  ghost predicate IntactOne(m: Placed, mem: Memory) {
    m.buf in mem && End(m) <= |mem[m.buf]| && mem[m.buf][m.start..End(m)] == m.body
  }

  /** Every message handed out still has its bytes. */
  ghost predicate Intact(live: map<nat, Placed>, mem: Memory) {
    forall i | i in live :: IntactOne(live[i], mem)
  }

  /** The messages handed out in a buffer end before a position in it. */
  ghost predicate Before(live: map<nat, Placed>, buf: Ptr, pos: nat) {
    forall i | i in live :: live[i].buf == buf ==> End(live[i]) <= pos
  }

  /** In each buffer, a message handed out later lies behind those handed out before. */
  ghost predicate InTurn(live: map<nat, Placed>) {
    forall i, j | i in live && j in live && i < j :: live[i].buf == live[j].buf ==> End(live[i]) <= live[j].start
  }

  ghost function Within(live: map<nat, Placed>, b: Ptr): set<nat> {
    set i | i in live && live[i].buf == b
  }

  function One(b: bool): nat {
    if b then 1 else 0
  }

  predicate LiesIn(body: Body, b: Ptr) {
    body.InPlace? && body.buf == b
  }

  /** The messages that keep a buffer alive are those handed out and the one in progress. */
  ghost predicate Counted(live: map<nat, Placed>, body: Body, buffers: map<Ptr, Buffer>) {
    && (forall i | i in live :: live[i].buf in buffers)
    && (forall b | b in buffers :: buffers[b].messages == |Within(live, b)| + One(LiesIn(body, b)))
  }

  ghost predicate Good(z: State, a: Arena) {
    && a.size > 8 && MemoryOk(z.mem, a) && BodyOk(z, a.size) && WellFormed(View(z))
    && Intact(z.live, z.mem) && InTurn(z.live) && Counted(z.live, z.body, a.buffers)
    && Before(z.live, a.cur, a.pos) && (z.body.InPlace? ==> Before(z.live, z.body.buf, z.body.start))
    && (forall i | i in z.live :: i < z.next)
  }

  /** The decoder has come to `c` in the buffer: the message in progress goes on there, or none lies beyond. */
  ghost predicate At(z: State, a: Arena, c: nat) {
    if LiesIn(z.body, a.cur) then z.body.start + z.body.size - z.toRead == c && z.body.start + z.body.size == a.pos
    else a.pos <= c
  }

  // ------------------------------------------------------------------ writes to memory

  /** Bytes written over part of a buffer. */
  function Overwritten(m: Key, at: nat, bytes: Key): (r: Key)
    requires at + |bytes| <= |m|
    ensures |r| == |m|
  {
    m[..at] + bytes + m[at + |bytes|..]
  }

  lemma OverwrittenSlices(m: Key, at: nat, bytes: Key, i: nat, j: nat)
    requires at + |bytes| <= |m| && i <= j <= |m|
    ensures j <= at || at + |bytes| <= i ==> Overwritten(m, at, bytes)[i..j] == m[i..j]
    ensures i <= at && j == at + |bytes| ==> Overwritten(m, at, bytes)[i..j] == m[i..at] + bytes
  {
    var r := Overwritten(m, at, bytes);
    assert forall k :: 0 <= k < |m| ==> r[k] == if at <= k < at + |bytes| then bytes[k - at] else m[k];
    if j <= at || at + |bytes| <= i {
      assert r[i..j] == m[i..j];
    }
    if i <= at && j == at + |bytes| {
      assert r[i..j] == m[i..at] + bytes;
    }
  }

  lemma SliceOfPrefix(m: Key, n: nat, i: nat, j: nat)
    requires i <= j <= n <= |m|
    ensures m[..n][i..j] == m[i..j]
  {
  }

  /** A write behind all messages handed out in a buffer. */
  lemma WriteIntact(live: map<nat, Placed>, mem: Memory, b: Ptr, at: nat, bytes: Key)
    requires Intact(live, mem) && b in mem && at + |bytes| <= |mem[b]| && Before(live, b, at)
    ensures Intact(live, mem[b := Overwritten(mem[b], at, bytes)])
  {
    var mem' := mem[b := Overwritten(mem[b], at, bytes)];
    forall i | i in live ensures IntactOne(live[i], mem') {
      assert IntactOne(live[i], mem);
      if live[i].buf == b {
        OverwrittenSlices(mem[b], at, bytes, live[i].start, End(live[i]));
      }
    }
  }

  /** Nothing lies in a buffer that no message keeps alive. */
  lemma NoneWithin(live: map<nat, Placed>, body: Body, buffers: map<Ptr, Buffer>, b: Ptr)
    requires Counted(live, body, buffers) && b in buffers && buffers[b].messages == 0
    ensures Before(live, b, 0) && !LiesIn(body, b)
  {
    assert Within(live, b) == {};
    forall i | i in live ensures live[i].buf != b {
      assert live[i].buf == b ==> i in Within(live, b);
    }
  }

  /** Bytes arrive at the start of the buffer. */
  function Arrived(z: State, cur: Ptr, input: Key): State
    requires cur in z.mem && |input| <= |z.mem[cur]|
  {
    z.(mem := z.mem[cur := Overwritten(z.mem[cur], 0, input)])
  }

  lemma ArrivedGood(z: State, a: Arena, input: Key)
    requires Good(z, a) && a.pos == 0 && a.cur in a.buffers && a.buffers[a.cur].messages == 0 && |input| <= a.size
    ensures var z' := Arrived(z, a.cur, input);
      Good(z', a) && View(z') == View(z) && At(z', a, 0) && z'.mem[a.cur][..|input|] == input
  {
    NoneWithin(z.live, z.body, a.buffers, a.cur);
    WriteIntact(z.live, z.mem, a.cur, 0, input);
    OverwrittenSlices(z.mem[a.cur], 0, input, 0, |input|);
  }

  // ------------------------------------------------------------------ bytes for the current step

  /** Takes bytes from the buffer; the bytes of a message that lies there are in place already. */
  function Took(z: State, cur: Ptr, c: nat, k: nat): State
    requires cur in z.mem && BodyOk(z, |z.mem[cur]|) && c + k <= |z.mem[cur]| && k <= z.toRead
  {
    var chunk, t := z.mem[cur][c..c + k], z.toRead - k;
    match z.body
    case NoBody => z.(tmp := z.tmp + chunk, toRead := t)
    case OwnBody(bytes) => z.(body := OwnBody(bytes + chunk), toRead := t)
    case InPlace(b, start, size) =>
      if b == cur then z.(toRead := t)
      else z.(mem := z.mem[b := Overwritten(z.mem[b], start + size - z.toRead, chunk)], toRead := t)
  }

  lemma TookHere(z: State, a: Arena, c: nat, k: nat)
    requires MemoryOk(z.mem, a) && BodyOk(z, a.size) && At(z, a, c) && c + k <= a.size && 0 < k <= z.toRead
    requires LiesIn(z.body, a.cur)
    ensures Collected(Took(z, a.cur, c, k)) == Collected(z) + z.mem[a.cur][c..c + k]
  {
    var m, start := z.mem[a.cur], z.body.start;
    assert m[start..c + k] == m[start..c] + m[c..c + k];
  }

  lemma TookThere(z: State, a: Arena, c: nat, k: nat)
    requires MemoryOk(z.mem, a) && BodyOk(z, a.size) && c + k <= a.size && 0 < k <= z.toRead
    requires z.body.InPlace? && z.body.buf != a.cur
    ensures Collected(Took(z, a.cur, c, k)) == Collected(z) + z.mem[a.cur][c..c + k]
  {
    var at := z.body.start + z.body.size - z.toRead;
    OverwrittenSlices(z.mem[z.body.buf], at, z.mem[a.cur][c..c + k], z.body.start, at + k);
    hide Overwritten;
  }

  lemma TookView(z: State, a: Arena, c: nat, k: nat)
    requires Good(z, a) && At(z, a, c) && c + k <= a.size && 0 < k <= z.toRead
    ensures var z', d := Took(z, a.cur, c, k), View(z);
      && View(z') == d.(toRead := d.toRead - k, buf := d.buf + z.mem[a.cur][c..c + k])
      && WellFormed(View(z')) && z'.mem[a.cur] == z.mem[a.cur] && At(z', a, c + k)
  {
    hide Intact, InTurn, Counted, Before, Overwritten;
    if LiesIn(z.body, a.cur) {
      TookHere(z, a, c, k);
    } else if z.body.InPlace? {
      TookThere(z, a, c, k);
    }
  }

  lemma BeforeLater(live: map<nat, Placed>, b: Ptr, p: nat, q: nat)
    requires Before(live, b, p) && p <= q
    ensures Before(live, b, q)
  {
  }

  lemma CountedSame(live: map<nat, Placed>, body: Body, body': Body, buffers: map<Ptr, Buffer>)
    requires Counted(live, body, buffers)
    requires body.InPlace? == body'.InPlace? && (body.InPlace? ==> body.buf == body'.buf)
    ensures Counted(live, body', buffers)
  {
    assert forall b :: LiesIn(body', b) == LiesIn(body, b);
  }

  lemma TookShape(z: State, a: Arena, c: nat, k: nat)
    requires MemoryOk(z.mem, a) && BodyOk(z, a.size) && c + k <= a.size && 0 < k <= z.toRead
    ensures var z' := Took(z, a.cur, c, k);
      && MemoryOk(z'.mem, a) && BodyOk(z', a.size) && z'.live == z.live && z'.next == z.next
      && z'.body.InPlace? == z.body.InPlace? && (z.body.InPlace? ==> z'.body == z.body)
  {
  }

  lemma TookIntact(z: State, a: Arena, c: nat, k: nat)
    requires Good(z, a) && c + k <= a.size && 0 < k <= z.toRead
    ensures Intact(z.live, Took(z, a.cur, c, k).mem)
  {
    hide Intact, InTurn, Counted, Before, View, WellFormed;
    if z.body.InPlace? && z.body.buf != a.cur {
      var at := z.body.start + z.body.size - z.toRead;
      BeforeLater(z.live, z.body.buf, z.body.start, at);
      WriteIntact(z.live, z.mem, z.body.buf, at, z.mem[a.cur][c..c + k]);
    }
  }

  lemma TookGood(z: State, a: Arena, c: nat, k: nat)
    requires Good(z, a) && At(z, a, c) && c + k <= a.size && 0 < k <= z.toRead
    ensures Good(Took(z, a.cur, c, k), a)
  {
    TookView(z, a, c, k);
    TookShape(z, a, c, k);
    TookIntact(z, a, c, k);
    hide Took, Intact, Counted, Before, MemoryOk, BodyOk, View, WellFormed;
    CountedSame(z.live, z.body, Took(z, a.cur, c, k).body, a.buffers);
  }

  // ------------------------------------------------------------------ steps

  /** The message is complete and is handed out. */
  function Done(z: State): State {
    var y := z.(step := FlagsReady, toRead := 1, tmp := [], body := NoBody);
    if z.body.InPlace? then
      y.(live := z.live[z.next := Placed(z.body.buf, z.body.start, Collected(z))], next := z.next + 1)
    else y
  }

  lemma WithinMore(live: map<nat, Placed>, i: nat, m: Placed, b: Ptr)
    requires i !in live
    ensures |Within(live[i := m], b)| == |Within(live, b)| + One(m.buf == b)
  {
    if m.buf == b {
      assert Within(live[i := m], b) == Within(live, b) + {i};
    } else {
      assert Within(live[i := m], b) == Within(live, b);
    }
  }

  lemma CountedDone(live: map<nat, Placed>, i: nat, body: Body, buffers: map<Ptr, Buffer>, bytes: Key)
    requires Counted(live, body, buffers) && body.InPlace? && body.buf in buffers && i !in live
    ensures Counted(live[i := Placed(body.buf, body.start, bytes)], NoBody, buffers)
  {
    hide Within;
    var m := Placed(body.buf, body.start, bytes);
    forall b | b in buffers ensures buffers[b].messages == |Within(live[i := m], b)| {
      WithinMore(live, i, m, b);
    }
  }

  lemma DoneView(z: State, max: int)
    requires z.step == MessageReady && z.toRead == 0
    ensures Advance(View(z), max) == (View(Done(z)), Ready(Frame(z.more, z.command, Collected(z))))
  {
  }

  lemma DoneGood(z: State, a: Arena)
    requires Good(z, a) && z.step == MessageReady && z.toRead == 0
    requires LiesIn(z.body, a.cur) ==> z.body.start + z.body.size <= a.pos
    ensures Good(Done(z), a)
  {
    hide Intact, InTurn, Counted, IntactOne;
    if z.body.InPlace? {
      CountedDone(z.live, z.next, z.body, a.buffers, Collected(z));
      DoneIntact(z, a);
      DoneBefore(z, a);
    } else {
      CountedSame(z.live, z.body, NoBody, a.buffers);
    }
  }

  lemma DoneBefore(z: State, a: Arena)
    requires BodyOk(z, a.size) && z.toRead == 0 && z.body.InPlace? && Before(z.live, a.cur, a.pos)
    requires LiesIn(z.body, a.cur) ==> z.body.start + z.body.size <= a.pos
    ensures Before(Done(z).live, a.cur, a.pos)
  {
    assert |Collected(z)| == z.body.size;
  }

  lemma DoneIntact(z: State, a: Arena)
    requires Good(z, a) && z.toRead == 0 && z.body.InPlace?
    ensures Intact(Done(z).live, z.mem) && InTurn(Done(z).live)
  {
    var m := Placed(z.body.buf, z.body.start, Collected(z));
    assert IntactOne(m, z.mem);
    assert forall i | i in z.live :: IntactOne(z.live[i], z.mem);
  }

  /** The header is complete: the body follows, in the buffer if the allocator placed it there. */
  function Seated(z: State, cur: Ptr, c: nat, size: nat, placed: bool): State {
    z.(step := MessageReady, toRead := size, tmp := [], body := if placed then InPlace(cur, c, size) else OwnBody([]))
  }

  /** The allocator after it has placed a message. */
  function Grown(a: Arena, c: nat, size: nat, placed: bool): Arena
    requires a.cur in a.buffers
  {
    if !placed then a.(pos := c) else
      var b := a.buffers[a.cur];
      a.(pos := c + size, buffers := a.buffers[a.cur := Buffer(b.count + 1, b.messages + 1, 0)])
  }

  lemma CountedPlaced(live: map<nat, Placed>, a: Arena, c: nat, size: nat)
    requires a.cur in a.buffers && Counted(live, NoBody, a.buffers)
    ensures Counted(live, InPlace(a.cur, c, size), Grown(a, c, size, true).buffers)
  {
  }

  lemma SeatedGood(z: State, a: Arena, c: nat, size: nat, placed: bool)
    requires Good(z, a) && z.body == NoBody && a.pos <= c && 0 < c <= a.size && (placed ==> c + size <= a.size)
    ensures var z', a' := Seated(z, a.cur, c, size, placed), Grown(a, c, size, placed);
      && Good(z', a') && At(z', a', c)
      && View(z') == View(z).(step := MessageReady, toRead := size, buf := [])
  {
    BeforeLater(z.live, a.cur, a.pos, c);
    if placed {
      BeforeLater(z.live, a.cur, c, c + size);
      CountedPlaced(z.live, a, c, size);
    } else {
      CountedSame(z.live, NoBody, OwnBody([]), a.buffers);
    }
    hide Intact, InTurn, Counted, Before;
  }

  /** The flags are read; one or eight bytes of length follow. */
  function AfterFlags(z: State): State
    requires z.tmp != []
  {
    var large := IsSet(z.tmp[0], LARGE);
    z.(step := if large then EightByteSizeReady else OneByteSizeReady, toRead := if large then 8 else 1, tmp := [],
       more := IsSet(z.tmp[0], MORE), command := IsSet(z.tmp[0], COMMAND))
  }

  lemma FlagsGood(z: State, a: Arena, max: int)
    requires Good(z, a) && z.step == FlagsReady && z.toRead == 0
    ensures |z.tmp| == 1 && Good(AfterFlags(z), a) && Advance(View(z), max) == (View(AfterFlags(z)), NeedMore)
  {
    hide Intact, InTurn, Counted, Before, MemoryOk;
  }

  // ------------------------------------------------------------------ allocation and closing

  /** The allocator has moved on to a buffer without messages. */
  ghost predicate MovedOn(a: Arena, a': Arena) {
    && a'.size == a.size && a'.pos == 0 && a'.buffers.Keys == a.buffers.Keys + {a'.cur}
    && a'.buffers[a'.cur].messages == 0 && (a'.cur in a.buffers ==> a.buffers[a'.cur].messages == 0)
    && forall b | b in a.buffers && b != a'.cur :: a'.buffers[b].messages == a.buffers[b].messages
  }

  /** New memory has arbitrary contents. */
  function WithBuffer(z: State, b: Ptr, size: nat): State {
    if b in z.mem then z else z.(mem := z.mem[b := seq(size, _ => 0)])
  }

  lemma MovedOnCounted(live: map<nat, Placed>, body: Body, a: Arena, a': Arena)
    requires Counted(live, body, a.buffers) && MovedOn(a, a') && (body.InPlace? ==> body.buf in a.buffers)
    ensures Counted(live, body, a'.buffers)
  {
    forall b | b in a'.buffers ensures a'.buffers[b].messages == |Within(live, b)| + One(LiesIn(body, b)) {
      if b !in a.buffers {
        assert Within(live, b) == {};
      }
    }
  }

  lemma MovedOnGood(z: State, a: Arena, a': Arena)
    requires Good(z, a) && MovedOn(a, a')
    ensures var z' := WithBuffer(z, a'.cur, a.size); Good(z', a') && View(z') == View(z)
  {
    var z' := WithBuffer(z, a'.cur, a.size);
    hide Intact, InTurn, Counted, Before;
    MovedOnCounted(z.live, z.body, a, a');
    NoneWithin(z.live, z.body, a'.buffers, a'.cur);
    MoreIntact(z.live, z.mem, z'.mem);
  }

  lemma MoreIntact(live: map<nat, Placed>, mem: Memory, mem': Memory)
    requires Intact(live, mem) && forall b | b in mem :: b in mem' && mem'[b] == mem[b]
    ensures Intact(live, mem')
  {
    forall i | i in live ensures IntactOne(live[i], mem') {
      assert IntactOne(live[i], mem);
    }
  }

  /** A message in a buffer is closed. */
  ghost predicate OneFewer(m: map<Ptr, Buffer>, m': map<Ptr, Buffer>, b: Ptr) {
    && m'.Keys == m.Keys && b in m && m'[b].messages == m[b].messages - 1
    && forall d | d in m && d != b :: m'[d].messages == m[d].messages
  }

  lemma ClosedCounted(live: map<nat, Placed>, body: Body, m: map<Ptr, Buffer>, m': map<Ptr, Buffer>, i: nat)
    requires Counted(live, body, m) && i in live && OneFewer(m, m', live[i].buf)
    ensures Counted(live - {i}, body, m')
  {
    hide Within;
    var live' := live - {i};
    assert live'[i := live[i]] == live;
    forall d | d in m' ensures m'[d].messages == |Within(live', d)| + One(LiesIn(body, d)) {
      WithinMore(live', i, live[i], d);
    }
  }

  lemma FewerIntact(live: map<nat, Placed>, mem: Memory, i: nat)
    requires Intact(live, mem) && InTurn(live)
    ensures Intact(live - {i}, mem) && InTurn(live - {i})
  {
    assert forall j | j in live - {i} :: j in live && IntactOne(live[j], mem);
  }

  lemma FewerBefore(live: map<nat, Placed>, i: nat, b: Ptr, p: nat)
    requires Before(live, b, p)
    ensures Before(live - {i}, b, p)
  {
  }

  lemma ClosedGood(z: State, a: Arena, i: nat, m: map<Ptr, Buffer>)
    requires Good(z, a) && i in z.live && OneFewer(a.buffers, m, z.live[i].buf)
    ensures Good(z.(live := z.live - {i}), a.(buffers := m))
  {
    hide Intact, InTurn, Counted, Before, WellFormed;
    ClosedCounted(z.live, z.body, a.buffers, m, i);
    FewerIntact(z.live, z.mem, i);
    FewerBefore(z.live, i, a.cur, a.pos);
    if z.body.InPlace? {
      FewerBefore(z.live, i, z.body.buf, z.body.start);
    }
  }

  lemma ViewWithout(z: State, i: nat)
    ensures View(z.(live := z.live - {i})) == View(z)
  {
  }

  lemma LiveCounts(z: State, a: Arena, i: nat)
    requires Good(z, a) && i in z.live
    ensures z.live[i].buf in a.buffers && a.buffers[z.live[i].buf].messages > 0
  {
    assert i in Within(z.live, z.live[i].buf);
  }

  // ------------------------------------------------------------------ the decoder in place

  class ZeroCopyDecoder {
    const max: int
    const zeroCopy: bool
    const alloc: Allocator
    var z: State

    ghost function A(): Arena
      requires alloc.buf.Some?
      reads this, alloc
    {
      Arena(alloc.buffers, alloc.buf.value, alloc.pos, alloc.maxSize)
    }

    ghost predicate Valid()
      reads this, alloc
    {
      alloc.Valid() && alloc.buf.Some? && Good(z, A())
    }

    /** The content slots suffice, no two messages share a byte, and none was overwritten. */
    lemma Promises()
      requires Valid()
      ensures alloc.content <= alloc.maxCounters
      ensures InTurn(z.live) && Intact(z.live, z.mem)
    {
      alloc.SlotsSuffice();
    }

    /** Nothing lies in the buffer, and the decoder is at its start. */
    ghost predicate Blank()
      requires Valid()
      reads this, alloc
    {
      alloc.pos == 0 && alloc.buffers[alloc.buf.value].messages == 0
    }

    constructor (bufsize: nat, maxMsgSize: int, zeroCopy: bool)
      requires bufsize > 8
      ensures Valid() && fresh(alloc) && View(z) == START && z.live == map[]
      ensures max == maxMsgSize && alloc.maxSize == bufsize
    {
      max, this.zeroCopy := maxMsgSize, zeroCopy;
      alloc := new Allocator(bufsize);
      z := State(FlagsReady, 1, [], false, false, NoBody, map[], map[], 0);
      new;
      alloc.Allocate();
      z := WithBuffer(z, alloc.buf.value, bufsize);
      assert forall b :: Within(map[], b) == {};
    }

    /** A buffer to read into: the message itself if it takes all that fits a buffer. */
    method GetBuffer() returns (direct: bool)
      requires Valid()
      modifies this`z, alloc
      ensures Valid() && Blank() && View(z) == old(View(z)) && z.live == old(z.live)
      ensures direct <==> z.toRead >= alloc.maxSize
    {
      ghost var a := A();
      alloc.Allocate();
      MovedOnGood(z, a, A());
      z := WithBuffer(z, alloc.buf.value, alloc.maxSize);
      return z.toRead >= alloc.maxSize;
    }

    method Arrive(input: Key)
      requires Valid() && Blank() && |input| <= alloc.maxSize
      modifies this`z
      ensures Valid() && View(z) == old(View(z)) && At(z, A(), 0) && z.live == old(z.live)
      ensures z.mem[alloc.buf.value][..|input|] == input
    {
      ArrivedGood(z, A(), input);
      z := Arrived(z, alloc.buf.value, input);
    }

    method Take(c: nat, k: nat)
      requires Valid() && At(z, A(), c) && c + k <= alloc.maxSize && 0 < k <= z.toRead
      modifies this`z
      ensures Valid() && At(z, A(), c + k) && z.mem[alloc.buf.value] == old(z.mem[alloc.buf.value])
      ensures var d := old(View(z));
        View(z) == d.(toRead := d.toRead - k, buf := d.buf + old(z.mem[alloc.buf.value])[c..c + k])
    {
      TookView(z, A(), c, k);
      TookGood(z, A(), c, k);
      z := Took(z, alloc.buf.value, c, k);
    }

    /** `message_ready`: the message is handed out, with the body it has in memory. */
    method MessageReadyStep() returns (rc: Outcome)
      requires Valid() && z.step == MessageReady && z.toRead == 0
      requires LiesIn(z.body, alloc.buf.value) ==> z.body.start + z.body.size <= alloc.pos
      modifies this`z
      ensures Valid() && z.body == NoBody && z.mem == old(z.mem)
      ensures Advance(old(View(z)), max) == (View(z), rc) && rc.Ready?
    {
      DoneView(z, max);
      DoneGood(z, A());
      rc := Ready(Frame(z.more, z.command, Collected(z)));
      z := Done(z);
    }

    /** `size_ready`: storage for the body. */
    method SizeReadyStep(c: nat, size: nat) returns (rc: Outcome)
      requires Valid() && z.body == NoBody && alloc.pos <= c && 0 < c <= alloc.maxSize
      modifies this`z, alloc
      ensures Valid() && alloc.buf == old(alloc.buf) && z.mem == old(z.mem)
      ensures rc != TooLarge ==> At(z, A(), c)
      ensures SizeReady(old(View(z)), max, size) == (View(z), rc)
    {
      hide Intact, InTurn, Counted, Before, MemoryOk, BodyOk, Collected, WellFormed;
      if !Acceptable(max, size) {
        return TooLarge;
      }
      ghost var a := A();
      var placed := alloc.SizeReady(zeroCopy, c, size);
      SeatedGood(z, a, c, size, placed);
      z := Seated(z, alloc.buf.value, c, size, placed);
      assert A() == Grown(a, c, size, placed);
      return NeedMore;
    }

    /** One step of the state machine, with the decoder at `c` in the buffer. */
    method TakeStep(c: nat) returns (rc: Outcome)
      requires Valid() && At(z, A(), c) && z.toRead == 0 && 0 < c <= alloc.maxSize
      modifies this`z, alloc
      ensures Valid() && alloc.buf == old(alloc.buf) && z.mem == old(z.mem) && (rc != TooLarge ==> At(z, A(), c))
      ensures Advance(old(View(z)), max) == (View(z), rc)
    {
      match z.step
      case FlagsReady =>
        FlagsGood(z, A(), max);
        z := AfterFlags(z);
        rc := NeedMore;
      case OneByteSizeReady =>
        rc := SizeReadyStep(c, z.tmp[0]);
      case EightByteSizeReady =>
        rc := SizeReadyStep(c, GetUint64(z.tmp));
      case MessageReady =>
        rc := MessageReadyStep();
    }

    method TakeSteps(c: nat) returns (rc: Outcome)
      requires Valid() && At(z, A(), c) && 0 < c <= alloc.maxSize
      modifies this`z, alloc
      ensures Valid() && alloc.buf == old(alloc.buf) && z.mem == old(z.mem) && (rc != TooLarge ==> At(z, A(), c))
      ensures Settle(old(View(z)), max) == (View(z), rc)
    {
      hide Intact, InTurn, Counted, Before, Collected, BodyOk, At, Allocator.Valid;
      while z.toRead == 0
        invariant Valid() && At(z, A(), c) && alloc.buf == old(alloc.buf) && z.mem == old(z.mem)
        invariant WellFormed(View(z)) && Settle(View(z), max) == Settle(old(View(z)), max)
        decreases Rank(z.step), z.toRead == 0
      {
        rc := TakeStep(c);
        if rc != NeedMore {
          return;
        }
      }
      return NeedMore;
    }

    /** One turn of the loop of `decode`: bytes for the current step, and the steps they allow. */
    method TakeChunk(c: nat, n: nat) returns (rc: Outcome, c': nat)
      requires Valid() && At(z, A(), c) && c < n <= alloc.maxSize && z.toRead > 0
      modifies this`z, alloc
      ensures Valid() && alloc.buf == old(alloc.buf) && c < c' <= n
      ensures z.mem[alloc.buf.value] == old(z.mem[alloc.buf.value])
      ensures FeedAll(old(View(z)), max, z.mem[alloc.buf.value][c..c']) ==
              Decoded(View(z), if rc.Ready? then [rc.frame] else [], rc != TooLarge)
      ensures rc != TooLarge ==> At(z, A(), c') && z.toRead > 0
    {
      hide Intact, InTurn, Counted, Before, Collected, BodyOk, At, Settle, WellFormed, Allocator.Valid;
      var k := if z.toRead < n - c then z.toRead else n - c;
      FeedChunk(View(z), max, z.mem[alloc.buf.value][c..c + k]);
      Take(c, k);
      c' := c + k;
      rc := TakeSteps(c');
    }

    /** `decode` of the bytes from `c` to `n` in the buffer, up to the end of the first message. */
    method Decode(c: nat, n: nat) returns (rc: Outcome, c': nat)
      requires Valid() && At(z, A(), c) && c < n <= alloc.maxSize && z.toRead > 0
      modifies this`z, alloc
      ensures Valid() && alloc.buf == old(alloc.buf) && c < c' <= n
      ensures z.mem[alloc.buf.value] == old(z.mem[alloc.buf.value])
      ensures FeedAll(old(View(z)), max, z.mem[alloc.buf.value][c..c']) ==
              Decoded(View(z), if rc.Ready? then [rc.frame] else [], rc != TooLarge)
      ensures rc == NeedMore ==> c' == n
      ensures rc != TooLarge ==> At(z, A(), c') && z.toRead > 0
    {
      hide Intact, InTurn, Counted, Before, Collected, BodyOk, At, Settle, WellFormed, Allocator.Valid;
      ghost var bytes, d := z.mem[alloc.buf.value], View(z);
      rc, c' := NeedMore, c;
      while c' < n
        invariant c <= c' <= n && Valid() && At(z, A(), c') && z.toRead > 0 && rc == NeedMore
        invariant alloc.buf == old(alloc.buf) && z.mem[alloc.buf.value] == bytes
        invariant FeedAll(d, max, bytes[c..c']) == Decoded(View(z), [], true)
      {
        ghost var was := c';
        rc, c' := TakeChunk(c', n);
        assert bytes[c..c'] == bytes[c..was] + bytes[was..c'];
        FeedConcat(d, max, bytes[c..was], bytes[was..c']);
        if rc != NeedMore {
          return;
        }
      }
    }

    /** Bytes that were read straight into a message. */
    method DecodeDirect(input: Key) returns (rc: Outcome)
      requires Valid() && z.toRead >= alloc.maxSize && 0 < |input| <= z.toRead
      modifies this`z
      ensures Valid()
      ensures FeedAll(old(View(z)), max, input) == Decoded(View(z), if rc.Ready? then [rc.frame] else [], true)
      ensures rc != TooLarge && z.toRead > 0
    {
      FeedChunk(View(z), max, input);
      DirectGood(z, A(), input);
      z := z.(body := OwnBody(z.body.bytes + input), toRead := z.toRead - |input|);
      if z.toRead > 0 {
        return NeedMore;
      }
      rc := MessageReadyStep();
    }

    /** The engine's handling of bytes that have arrived where `get_buffer` said. */
    method HandleRead(direct: bool, input: Key) returns (frames: seq<Frame>, ok: bool)
      requires Valid() && Blank() && z.toRead > 0 && (direct <==> z.toRead >= alloc.maxSize)
      requires 0 < |input| <= if direct then z.toRead else alloc.maxSize
      modifies this`z, alloc
      ensures Valid() && (ok ==> z.toRead > 0)
      ensures FeedAll(old(View(z)), max, input) == Decoded(View(z), frames, ok)
    {
      if direct {
        var rc := DecodeDirect(input);
        return if rc.Ready? then [rc.frame] else [], true;
      }
      Arrive(input);
      frames, ok := DecodeAll(input);
    }

    /** One read: as many bytes of the stream as arrive and as there is room for. */
    method ReadSome(stream: Key, arriving: nat) returns (k: nat, frames: seq<Frame>, ok: bool)
      requires Valid() && z.toRead > 0 && stream != [] && arriving > 0
      modifies this`z, alloc
      ensures Valid() && 0 < k <= |stream| && (ok ==> z.toRead > 0)
      ensures FeedAll(old(View(z)), max, stream[..k]) == Decoded(View(z), frames, ok)
    {
      var direct := GetBuffer();
      var room := if direct then z.toRead else alloc.maxSize;
      k := if arriving < room then arriving else room;
      if |stream| < k {
        k := |stream|;
      }
      frames, ok := HandleRead(direct, stream[..k]);
    }

    /** The bytes at the start of the buffer, message by message. */
    method DecodeAll(input: Key) returns (frames: seq<Frame>, ok: bool)
      requires Valid() && At(z, A(), 0) && z.toRead > 0
      requires |input| <= alloc.maxSize && z.mem[alloc.buf.value][..|input|] == input
      modifies this`z, alloc
      ensures Valid() && (ok ==> z.toRead > 0)
      ensures FeedAll(old(View(z)), max, input) == Decoded(View(z), frames, ok)
    {
      hide Intact, InTurn, Counted, Before, Collected, BodyOk, At, Settle, WellFormed, Allocator.Valid;
      frames, ok := [], true;
      ghost var d, bytes := View(z), z.mem[alloc.buf.value];
      var c := 0;
      while c < |input|
        invariant 0 <= c <= |input| && Valid() && At(z, A(), c) && z.toRead > 0 && ok
        invariant alloc.buf == old(alloc.buf) && z.mem[alloc.buf.value] == bytes && bytes[..|input|] == input
        invariant FeedAll(d, max, input[..c]) == Decoded(View(z), frames, true)
      {
        ghost var before := c;
        var rc;
        rc, c := Decode(c, |input|);
        SliceOfPrefix(bytes, |input|, before, c);
        assert input[..c] == input[..before] + input[before..c];
        FeedConcat(d, max, input[..before], input[before..c]);
        if rc == TooLarge {
          assert input == input[..c] + input[c..];
          FeedConcat(d, max, input[..c], input[c..]);
          return frames, false;
        }
        if rc.Ready? {
          frames := frames + [rc.frame];
        }
      }
      assert input[..c] == input;
    }

    /** The last reference to a message handed out is given up. */
    method Close(i: nat)
      requires Valid() && i in z.live
      modifies this`z, alloc
      ensures Valid() && View(z) == old(View(z)) && z.toRead == old(z.toRead) && z.live == old(z.live) - {i}
    {
      hide Good, View, Allocator.Valid, BufferOk;
      ghost var a := A();
      LiveCounts(z, a, i);
      alloc.CallDecRef(z.live[i].buf);
      assert A() == a.(buffers := alloc.buffers);
      ClosedGood(z, a, i, alloc.buffers);
      ViewWithout(z, i);
      z := z.(live := z.live - {i});
    }

    /** The end of the decoder: buffers live on with the messages in them, and with the last of these they are freed. */
    method Destroy()
      requires Valid()
      modifies this`z, alloc
      ensures alloc.Valid() && alloc.buf == None && z.live == old(z.live) && Counted(z.live, NoBody, alloc.buffers)
      ensures z.live == map[] ==> forall b | b in alloc.buffers :: alloc.buffers[b].frees == 1
    {
      GiveUp();
      hide Allocator.Valid, Counted;
      ghost var m := alloc.buffers;
      alloc.Deallocate();
      SameMessages(z.live, m, alloc.buffers);
      if z.live == map[] {
        NoMessages(z.live, alloc.buffers);
        alloc.NothingLeaks();
      }
    }

    /** The message in progress, if it lies in a buffer, is given up. */
    method GiveUp()
      requires Valid()
      modifies this`z, alloc
      ensures alloc.Valid() && z.live == old(z.live) && Counted(z.live, NoBody, alloc.buffers)
    {
      hide View, WellFormed, Intact, InTurn, Before, Within, Allocator.Valid;
      ghost var m := alloc.buffers;
      if z.body.InPlace? {
        assert m[z.body.buf].messages > 0;
        alloc.CallDecRef(z.body.buf);
        GivenUp(z.live, z.body, m, alloc.buffers);
      } else {
        CountedSame(z.live, z.body, NoBody, alloc.buffers);
      }
      z := z.(body := NoBody);
    }

    method CloseSome(ids: set<nat>)
      requires Valid()
      modifies this`z, alloc
      ensures Valid() && View(z) == old(View(z)) && z.toRead == old(z.toRead) && z.live == old(z.live) - ids
    {
      hide Good, View, Allocator.Valid;
      var left := ids;
      while left != {}
        invariant Valid() && left <= ids && View(z) == old(View(z)) && z.toRead == old(z.toRead)
        invariant z.live == old(z.live) - (ids - left)
        decreases |left|
      {
        var i :| i in left;
        if i in z.live {
          Close(i);
        }
        left := left - {i};
      }
    }
  }

  lemma SameMessages(live: map<nat, Placed>, m: map<Ptr, Buffer>, m': map<Ptr, Buffer>)
    requires Counted(live, NoBody, m) && m'.Keys == m.Keys && forall b | b in m :: m'[b].messages == m[b].messages
    ensures Counted(live, NoBody, m')
  {
  }

  lemma NoMessages(live: map<nat, Placed>, m: map<Ptr, Buffer>)
    requires Counted(live, NoBody, m) && live == map[]
    ensures forall b | b in m :: m[b].messages == 0
  {
    forall b | b in m ensures m[b].messages == 0 {
      assert Within(live, b) == {};
    }
  }

  lemma GivenUp(live: map<nat, Placed>, body: Body, m: map<Ptr, Buffer>, m': map<Ptr, Buffer>)
    requires Counted(live, body, m) && body.InPlace? && OneFewer(m, m', body.buf)
    ensures Counted(live, NoBody, m')
  {
    hide Within;
  }

  lemma DirectGood(z: State, a: Arena, input: Key)
    requires Good(z, a) && z.toRead >= a.size && 0 < |input| <= z.toRead
    ensures z.body.OwnBody? && z.step == MessageReady
    ensures var z' := z.(body := OwnBody(z.body.bytes + input), toRead := z.toRead - |input|);
      Good(z', a) && View(z') == View(z).(toRead := z.toRead - |input|, buf := View(z).buf + input)
  {
    CountedSame(z.live, z.body, OwnBody([]), a.buffers);
  }

  // ------------------------------------------------------------------ every stream, every way of filling the buffers

  /**
   A stream that arrives in reads of any positive sizes. After each read any messages handed out may
   be closed. The frames are those of the copying decoder.
   */
  method Serve(decoder: ZeroCopyDecoder, stream: Key, arriving: nat -> nat, closing: nat -> set<nat>)
    returns (frames: seq<Frame>, ok: bool)
    requires decoder.Valid() && decoder.z.toRead > 0 && forall n :: arriving(n) > 0
    modifies decoder`z, decoder.alloc
    ensures decoder.Valid()
    ensures FeedAll(old(View(decoder.z)), decoder.max, stream) == Decoded(View(decoder.z), frames, ok)
  {
    hide Intact, InTurn, Counted, Before, Collected, BodyOk, MemoryOk, WellFormed, Settle, Allocator.Valid;
    ghost var d := View(decoder.z);
    frames, ok := [], true;
    var at, n := 0, 0;
    while at < |stream| && ok
      invariant 0 <= at <= |stream| && decoder.Valid() && (ok ==> decoder.z.toRead > 0)
      invariant FeedAll(d, decoder.max, stream[..at]) == Decoded(View(decoder.z), frames, ok)
      decreases |stream| - at
    {
      ghost var rest := stream[at..];
      var k, more;
      k, more, ok := decoder.ReadSome(stream[at..], arriving(n));
      assert stream[..at + k] == stream[..at] + rest[..k];
      FeedConcat(d, decoder.max, stream[..at], rest[..k]);
      frames := frames + more;
      decoder.CloseSome(closing(n));
      at, n := at + k, n + 1;
    }
    assert stream == stream[..at] + stream[at..];
    FeedConcat(d, decoder.max, stream[..at], stream[at..]);
  }

  /**
   A whole connection: at its end, and so after every read, the content slots have sufficed, no two
   messages share a byte and none was overwritten.
   */
  method Connection(stream: Key, arriving: nat -> nat, closing: nat -> set<nat>, bufsize: nat, max: int, zeroCopy: bool)
    returns (decoder: ZeroCopyDecoder, frames: seq<Frame>, ok: bool)
    requires bufsize > 8 && forall n :: arriving(n) > 0
    ensures fresh(decoder) && fresh(decoder.alloc) && decoder.Valid()
    ensures FeedAll(START, max, stream) == Decoded(View(decoder.z), frames, ok)
    ensures decoder.alloc.content <= decoder.alloc.maxCounters
    ensures InTurn(decoder.z.live) && Intact(decoder.z.live, decoder.z.mem)
  {
    decoder := new ZeroCopyDecoder(bufsize, max, zeroCopy);
    frames, ok := Serve(decoder, stream, arriving, closing);
    decoder.Promises();
  }

  /** Messages sent in any buffers and decoded in place from reads of any sizes arrive as the same frames. */
  method TransmitInPlace(ms: seq<Msg>, lends: nat -> bool, sizes: nat -> nat, arriving: nat -> nat,
                         closing: nat -> set<nat>, bufsize: nat, max: int, zeroCopy: bool)
    returns (sent: seq<Key>, frames: seq<Frame>, ok: bool)
    requires bufsize > 8 && (forall n :: sizes(n) > 0) && (forall n :: arriving(n) > 0)
    requires forall i :: 0 <= i < |ms| ==> Fits(ms[i], max)
    ensures Joined(sent) == AllOnWire(ms) && ok && frames == FramesOf(ms)
  {
    sent := Send(ms, lends, sizes);
    var decoder;
    decoder, frames, ok := Connection(Joined(sent), arriving, closing, bufsize, max, zeroCopy);
    StreamRoundTrip(max, ms);
  }
}
