/** The incremental decoder, and the round trip through it of everything the encoder writes. */
module ZmtpDecoder {
  import opened Bytes
  import opened Wire
  import opened Zmtp

  datatype Frame = Frame(more: bool, command: bool, body: Key)

  datatype DecoderStep = FlagsReady | OneByteSizeReady | EightByteSizeReady | MessageReady

  /** What a call returns: 0, 1 with a message, or -1. */
  datatype Outcome = NeedMore | Ready(frame: Frame) | TooLarge

  /** The state of a decoder: the step to take when `toRead` more bytes have been added to `buf`. */
  datatype Dec = Dec(step: DecoderStep, toRead: nat, buf: Key, more: bool, command: bool)

  const START := Dec(FlagsReady, 1, [], false, false)

  ghost predicate WellFormed(d: Dec) {
    match d.step
    case FlagsReady => |d.buf| + d.toRead == 1
    case OneByteSizeReady => |d.buf| + d.toRead == 1
    case EightByteSizeReady => |d.buf| + d.toRead == 8
    case MessageReady => true
  }

  predicate Acceptable(max: int, size: nat) {
    max >= 0 ==> size <= max
  }

  function SizeReady(d: Dec, max: int, size: nat): (Dec, Outcome) {
    if !Acceptable(max, size) then (d, TooLarge)
    else (d.(step := MessageReady, toRead := size, buf := []), NeedMore)
  }

  /** One step of the state machine. */
  function Advance(d: Dec, max: int): (Dec, Outcome)
    requires WellFormed(d) && d.toRead == 0
  {
    match d.step
    case FlagsReady =>
      var large := IsSet(d.buf[0], LARGE);
      (Dec(if large then EightByteSizeReady else OneByteSizeReady, if large then 8 else 1, [],
           IsSet(d.buf[0], MORE), IsSet(d.buf[0], COMMAND)), NeedMore)
    case OneByteSizeReady => SizeReady(d, max, d.buf[0])
    case EightByteSizeReady => SizeReady(d, max, GetUint64(d.buf))
    case MessageReady => (d.(step := FlagsReady, toRead := 1, buf := []), Ready(Frame(d.more, d.command, d.buf)))
  }

  function Rank(s: DecoderStep): nat {
    match s
    case FlagsReady => 2
    case OneByteSizeReady => 1
    case EightByteSizeReady => 1
    case MessageReady => 0
  }

  /** The steps that can be taken without reading. */
  function Settle(d: Dec, max: int): (r: (Dec, Outcome))
    requires WellFormed(d)
    ensures WellFormed(r.0) && (r.1 != TooLarge ==> r.0.toRead > 0)
    decreases Rank(d.step)
  {
    if d.toRead > 0 then (d, NeedMore)
    else
      var (d', o) := Advance(d, max);
      if o.NeedMore? then Settle(d', max) else (d', o)
  }

  /** The decoder as a function of the bytes it is fed, one by one. */
  function Feed(d: Dec, max: int, b: Byte): (r: (Dec, Outcome))
    requires WellFormed(d) && d.toRead > 0
    ensures WellFormed(r.0) && (r.1 != TooLarge ==> r.0.toRead > 0)
  {
    Settle(d.(toRead := d.toRead - 1, buf := d.buf + [b]), max)
  }

  /** Where a stream of bytes takes the decoder, the frames in it, and whether all was well. */
  datatype Decoded = Decoded(dec: Dec, frames: seq<Frame>, ok: bool)

  function FeedAll(d: Dec, max: int, bytes: Key): (r: Decoded)
    requires WellFormed(d) && d.toRead > 0
    ensures WellFormed(r.dec) && (r.ok ==> r.dec.toRead > 0)
    decreases |bytes|
  {
    if bytes == [] then Decoded(d, [], true)
    else
      var (d', o) := Feed(d, max, bytes[0]);
      match o
      case TooLarge => Decoded(d', [], false)
      case NeedMore => FeedAll(d', max, bytes[1..])
      case Ready(f) =>
        var r := FeedAll(d', max, bytes[1..]);
        r.(frames := [f] + r.frames)
  }

  /** A stream may be cut anywhere. */
  lemma {:induction false} FeedConcat(d: Dec, max: int, a: Key, b: Key)
    requires WellFormed(d) && d.toRead > 0
    ensures var r := FeedAll(d, max, a);
            FeedAll(d, max, a + b) ==
            if r.ok then var r' := FeedAll(r.dec, max, b); r'.(frames := r.frames + r'.frames) else r
    decreases |a|
  {
    hide Feed;
    if a == [] {
      assert a + b == b;
    } else {
      var (d', o) := Feed(d, max, a[0]);
      assert (a + b)[1..] == a[1..] + b;
      if o != TooLarge {
        FeedConcat(d', max, a[1..], b);
      }
    }
  }

  /** Bytes that all belong to the current step can be added at once. */
  lemma {:induction false} FeedChunk(d: Dec, max: int, chunk: Key)
    requires WellFormed(d) && 0 < |chunk| <= d.toRead
    ensures var (d', o) := Settle(d.(toRead := d.toRead - |chunk|, buf := d.buf + chunk), max);
            FeedAll(d, max, chunk) == Decoded(d', if o.Ready? then [o.frame] else [], o != TooLarge)
    decreases |chunk|
  {
    if |chunk| == 1 {
      assert chunk == [chunk[0]];
    } else {
      var d1 := d.(toRead := d.toRead - 1, buf := d.buf + [chunk[0]]);
      FeedChunk(d1, max, chunk[1..]);
      assert d.buf + [chunk[0]] + chunk[1..] == d.buf + chunk;
    }
  }

  // ------------------------------------------------------------- the decoder

  class Decoder {
    const max: int
    var dec: Dec

    /** No error has been reported. */
    ghost predicate Valid()
      reads this
    {
      WellFormed(dec) && dec.toRead > 0
    }

    constructor (maxMsgSize: int)
      ensures Valid() && dec == START && max == maxMsgSize
    {
      max := maxMsgSize;
      dec := START;
    }

    /** Takes the steps that can be taken. */
    method TakeSteps() returns (rc: Outcome)
      requires WellFormed(dec)
      modifies this
      ensures Settle(old(dec), max) == (dec, rc)
    {
      while dec.toRead == 0
        invariant WellFormed(dec) && Settle(dec, max) == Settle(old(dec), max)
        decreases Rank(dec.step), dec.toRead == 0
      {
        var next := Advance(dec, max);
        dec := next.0;
        if next.1 != NeedMore {
          return next.1;
        }
      }
      return NeedMore;
    }

    /** Decodes a buffer up to the end of the first message in it. */
    method Decode(data: Key) returns (rc: Outcome, used: nat)
      requires Valid()
      modifies this
      ensures used <= |data|
      ensures FeedAll(old(dec), max, data[..used]) ==
              Decoded(dec, if rc.Ready? then [rc.frame] else [], rc != TooLarge)
      ensures rc == NeedMore ==> used == |data|
      ensures data != [] ==> used > 0
    {
      hide Settle;
      rc, used := NeedMore, 0;
      while used < |data|
        invariant 0 <= used <= |data| && Valid() && rc == NeedMore
        invariant FeedAll(old(dec), max, data[..used]) == Decoded(dec, [], true)
      {
        var toCopy := if dec.toRead < |data| - used then dec.toRead else |data| - used;
        ghost var chunk := data[used..used + toCopy];
        assert data[..used + toCopy] == data[..used] + chunk;
        FeedConcat(old(dec), max, data[..used], chunk);
        FeedChunk(dec, max, chunk);
        dec := dec.(toRead := dec.toRead - toCopy, buf := dec.buf + data[used..used + toCopy]);
        used := used + toCopy;
        rc := TakeSteps();
        if rc != NeedMore {
          return;
        }
      }
    }
  }

  /** The engine's loop over one buffer: it is decoded to its end, or to the first error. */
  method ReceiveOne(decoder: Decoder, data: Key) returns (frames: seq<Frame>, ok: bool)
    requires decoder.Valid()
    modifies decoder
    ensures FeedAll(old(decoder.dec), decoder.max, data) == Decoded(decoder.dec, frames, ok)
  {
    hide Settle;
    frames, ok := [], true;
    var inpos := 0;
    while inpos < |data|
      invariant 0 <= inpos <= |data| && ok && decoder.Valid()
      invariant FeedAll(old(decoder.dec), decoder.max, data[..inpos]) == Decoded(decoder.dec, frames, true)
    {
      ghost var rest := data[inpos..];
      var rc, processed := decoder.Decode(data[inpos..]);
      assert data[..inpos + processed] == data[..inpos] + rest[..processed];
      FeedConcat(old(decoder.dec), decoder.max, data[..inpos], rest[..processed]);
      inpos := inpos + processed;
      if rc == TooLarge {
        FeedConcat(old(decoder.dec), decoder.max, data[..inpos], data[inpos..]);
        assert data == data[..inpos] + data[inpos..];
        return frames, false;
      }
      if rc.Ready? {
        frames := frames + [rc.frame];
      }
    }
    assert data[..inpos] == data;
  }

  function Joined(buffers: seq<Key>): Key {
    if buffers == [] then [] else Joined(buffers[..|buffers| - 1]) + buffers[|buffers| - 1]
  }

  /** The same over every buffer that arrives: only the stream matters, not how it is cut. */
  method Receive(decoder: Decoder, buffers: seq<Key>) returns (frames: seq<Frame>, ok: bool)
    requires decoder.Valid()
    modifies decoder
    ensures FeedAll(old(decoder.dec), decoder.max, Joined(buffers)) == Decoded(decoder.dec, frames, ok)
  {
    hide Settle;
    frames, ok := [], true;
    for i := 0 to |buffers|
      invariant ok ==> decoder.Valid()
      invariant FeedAll(old(decoder.dec), decoder.max, Joined(buffers[..i])) == Decoded(decoder.dec, frames, ok)
    {
      ghost var before := Joined(buffers[..i]);
      assert buffers[..i + 1][..i] == buffers[..i];
      FeedConcat(old(decoder.dec), decoder.max, before, buffers[i]);
      if ok {
        var more;
        more, ok := ReceiveOne(decoder, buffers[i]);
        frames := frames + more;
      }
    }
    assert buffers[..|buffers|] == buffers;
  }

  // ---------------------------------------------------------- the round trip

  /** The frame a message becomes: the name of its command is part of the body. */
  function FrameOf(m: Msg): Frame {
    Frame(m.more, m.command || m.kind == Subscribe || m.kind == Cancel, CommandName(m.kind) + m.data)
  }

  function FramesOf(ms: seq<Msg>): seq<Frame> {
    seq(|ms|, i requires 0 <= i < |ms| => FrameOf(ms[i]))
  }

  /** The body fits a 64-bit length and the limit of the receiver. */
  predicate Fits(m: Msg, max: int) {
    |FrameOf(m).body| < MAX64 && (max < 0 || |FrameOf(m).body| <= max)
  }

  /** The decoder is between two messages. */
  predicate Between(d: Dec) {
    d.step == FlagsReady && d.toRead == 1 && d.buf == []
  }

  lemma FlagsRoundTrip(more: bool, large: bool, command: bool)
    ensures var b := FlagsByte(more, large, command);
            IsSet(b, MORE) == more && IsSet(b, LARGE) == large && IsSet(b, COMMAND) == command
  {
  }

  /** The flags and the length of a frame. */
  function Head(f: Frame): Key {
    [FlagsByte(f.more, |f.body| > 255, f.command)] + if |f.body| > 255 then PutUint64(|f.body|) else [|f.body|]
  }

  /** A length: eight bytes if the flags say so, otherwise one. */
  predicate Announces(flags: Byte, len: Key, size: nat) {
    if IsSet(flags, LARGE) then |len| == 8 && GetUint64(len) == size else |len| == 1 && len[0] == size
  }

  /** The decoder waits for the length of a frame. */
  function Sizing(flags: Byte): Dec {
    if IsSet(flags, LARGE) then Dec(EightByteSizeReady, 8, [], IsSet(flags, MORE), IsSet(flags, COMMAND))
    else Dec(OneByteSizeReady, 1, [], IsSet(flags, MORE), IsSet(flags, COMMAND))
  }

  lemma FlagsStep(d: Dec, max: int, flags: Byte)
    requires Between(d)
    ensures FeedAll(d, max, [flags]) == Decoded(Sizing(flags), [], true)
  {
    FeedChunk(d, max, [flags]);
    assert d.buf + [flags] == [flags];
  }

  /** What the length of a frame leads to: an error, or the body. */
  function Sized(max: int, flags: Byte, len: Key, size: nat): (Dec, Outcome) {
    var d := Sizing(flags).(toRead := 0, buf := len);
    if 0 <= max < size then (d, TooLarge) else Settle(d.(step := MessageReady, toRead := size, buf := []), max)
  }

  lemma SettleSized(max: int, flags: Byte, len: Key, size: nat)
    requires Announces(flags, len, size)
    ensures var d := Sizing(flags).(toRead := 0, buf := len);
            WellFormed(d) && Settle(d, max) == Sized(max, flags, len, size)
  {
    hide GetUint64, IsSet;
    var d := Sizing(flags).(toRead := 0, buf := len);
    assert Advance(d, max) == SizeReady(d, max, size);
  }

  lemma LengthStep(max: int, flags: Byte, len: Key, size: nat)
    requires Announces(flags, len, size)
    ensures var (d, o) := Sized(max, flags, len, size);
            FeedAll(Sizing(flags), max, len) == Decoded(d, if o.Ready? then [o.frame] else [], o != TooLarge)
  {
    SettleSized(max, flags, len, size);
    var s := Sizing(flags);
    assert |len| == s.toRead && s.buf + len == len;
    hide FeedAll, Advance, Settle, Sized, Sizing;
    FeedChunk(s, max, len);
  }

  /** Flags and length take the decoder to the body, or past it if it is empty. */
  lemma HeadRead(d: Dec, max: int, flags: Byte, len: Key, size: nat)
    requires Between(d) && Announces(flags, len, size) && (max < 0 || size <= max)
    ensures var (d', o) := Settle(Dec(MessageReady, size, [], IsSet(flags, MORE), IsSet(flags, COMMAND)), max);
            FeedAll(d, max, [flags] + len) == Decoded(d', if o.Ready? then [o.frame] else [], true)
  {
    FlagsStep(d, max, flags);
    LengthStep(max, flags, len, size);
    hide IsSet;
    FeedConcat(d, max, [flags], len);
  }

  /**
   Any frame within the limit is read by what its bytes say: bit 0 of the flags is `more`, bit 2 is
   `command`, other bits do not matter, and a long length may announce a short body.
   */
  lemma AnyFrameRead(d: Dec, max: int, flags: Byte, len: Key, body: Key)
    requires Between(d) && Announces(flags, len, |body|) && (max < 0 || |body| <= max)
    ensures var r := FeedAll(d, max, [flags] + len + body);
            r.ok && r.frames == [Frame(flags % 2 == 1, (flags / 4) % 2 == 1, body)] && Between(r.dec)
  {
    HeadRead(d, max, flags, len, |body|);
    FeedConcat(d, max, [flags] + len, body);
    assert IsSet(flags, MORE) == (flags % 2 == 1) && IsSet(flags, COMMAND) == ((flags / 4) % 2 == 1);
    hide IsSet;
    var d1 := FeedAll(d, max, [flags] + len).dec;
    if body != [] {
      FeedChunk(d1, max, body);
      assert [] + body == body;
    }
  }

  lemma HeadAnnounces(f: Frame)
    requires |f.body| < MAX64
    ensures Announces(Head(f)[0], Head(f)[1..], |f.body|)
  {
    FlagsRoundTrip(f.more, |f.body| > 255, f.command);
    Uint64RoundTrip(|f.body|);
    hide PutUint64, GetUint64, IsSet, FlagsByte;
  }

  /** A frame on the wire is decoded to itself. */
  lemma FrameRoundTrip(d: Dec, max: int, f: Frame)
    requires Between(d) && |f.body| < MAX64 && (max < 0 || |f.body| <= max)
    ensures var r := FeedAll(d, max, Head(f) + f.body);
            r.ok && r.frames == [f] && Between(r.dec)
  {
    hide FeedAll, PutUint64, Announces, IsSet;
    var flags := FlagsByte(f.more, |f.body| > 255, f.command);
    FlagsRoundTrip(f.more, |f.body| > 255, f.command);
    HeadAnnounces(f);
    AnyFrameRead(d, max, flags, Head(f)[1..], f.body);
    assert Head(f) == [flags] + Head(f)[1..];
  }

  lemma MsgRoundTrip(d: Dec, max: int, m: Msg)
    requires Between(d) && Fits(m, max)
    ensures var r := FeedAll(d, max, OnWire(m));
            r.ok && r.frames == [FrameOf(m)] && Between(r.dec)
  {
    var f := FrameOf(m);
    FrameRoundTrip(d, max, f);
    assert OnWire(m) == Head(f) + f.body;
  }

  /**
   Everything the encoder writes for some messages, however it is cut into buffers, is decoded to
   the frames of these messages.
   */
  lemma {:induction false} StreamRoundTrip(max: int, ms: seq<Msg>)
    requires forall i :: 0 <= i < |ms| ==> Fits(ms[i], max)
    ensures var r := FeedAll(START, max, AllOnWire(ms));
            r.ok && r.frames == FramesOf(ms) && Between(r.dec)
    decreases |ms|
  {
    hide Settle, OnWire, FrameOf, Feed;
    if ms != [] {
      var init, last := ms[..|ms| - 1], ms[|ms| - 1];
      StreamRoundTrip(max, init);
      FeedConcat(START, max, AllOnWire(init), OnWire(last));
      MsgRoundTrip(FeedAll(START, max, AllOnWire(init)).dec, max, last);
      assert FramesOf(ms) == FramesOf(init) + [FrameOf(last)];
    }
  }

  /** A message that exceeds the limit of the receiver is an error, and nothing of it gets through. */
  lemma TooLargeIsError(d: Dec, max: int, flags: Byte, len: Key, size: nat, rest: Key)
    requires Between(d) && Announces(flags, len, size) && 0 <= max < size
    ensures var r := FeedAll(d, max, [flags] + len + rest);
            !r.ok && r.frames == []
  {
    hide Settle, FeedAll;
    FlagsStep(d, max, flags);
    LengthStep(max, flags, len, size);
    FeedConcat(Sizing(flags), max, len, rest);
    FeedConcat(d, max, [flags], len + rest);
    assert [flags] + len + rest == [flags] + (len + rest);
  }

  /** A buffer that is given, not lent, has room for what is written to it. */
  ghost predicate WithinSizes(sent: seq<Key>, lends: nat -> bool, sizes: nat -> nat) {
    forall i :: 0 <= i < |sent| && !lends(i) ==> |sent[i]| <= sizes(i)
  }

  lemma JoinedSnoc(sent: seq<Key>, out: Key)
    ensures Joined(sent + [out]) == Joined(sent) + out
  {
    assert (sent + [out])[..|sent|] == sent;
  }

  /** One message: it is loaded and then encoded into as many buffers as it takes. */
  method SendOne(encoder: Encoder, m: Msg, lends: nat -> bool, sizes: nat -> nat, before: seq<Key>)
    returns (sent: seq<Key>)
    requires forall n :: sizes(n) > 0
    requires encoder.Valid() && encoder.inProgress.None? && encoder.bufSize > 0
    requires encoder.written == Joined(before) && WithinSizes(before, lends, sizes)
    modifies encoder
    ensures encoder.Valid() && encoder.inProgress.None? && encoder.loaded == old(encoder.loaded) + [m]
    ensures encoder.written == Joined(sent) && WithinSizes(sent, lends, sizes)
  {
    hide AllOnWire, Joined;
    encoder.LoadMsg(m);
    sent := before;
    ghost var total := |AllOnWire(encoder.loaded)|;
    while encoder.inProgress.Some?
      invariant encoder.Valid() && encoder.loaded == old(encoder.loaded) + [m]
      invariant encoder.written == Joined(sent) && WithinSizes(sent, lends, sizes)
      decreases total - |encoder.written|, encoder.inProgress.Some?
    {
      var out := encoder.Encode(!lends(|sent|), sizes(|sent|));
      JoinedSnoc(sent, out);
      sent := sent + [out];
    }
  }

  /**
   The sending engine: every message is encoded into buffers of any positive sizes that it gives,
   or into what the encoder lends it.
   */
  method Send(ms: seq<Msg>, lends: nat -> bool, sizes: nat -> nat) returns (sent: seq<Key>)
    requires forall n :: sizes(n) > 0
    ensures Joined(sent) == AllOnWire(ms) && WithinSizes(sent, lends, sizes)
  {
    var encoder := new Encoder(8192);
    sent := [];
    assert encoder.written == Joined(sent);
    hide AllOnWire, Joined;
    for i := 0 to |ms|
      invariant encoder.Valid() && encoder.inProgress.None? && fresh(encoder)
      invariant encoder.loaded == ms[..i] && encoder.written == Joined(sent) && WithinSizes(sent, lends, sizes)
    {
      sent := SendOne(encoder, ms[i], lends, sizes, sent);
      assert ms[..i + 1] == ms[..i] + [ms[i]];
    }
    assert ms[..|ms|] == ms;
    assert encoder.written + [] == encoder.written;
  }

  /** A stream cut into buffers of the given sizes, of which at least one byte is taken each time. */
  function Recut(stream: Key, sizes: nat -> nat, n: nat): (r: seq<Key>)
    ensures Joined(r) == stream
    decreases |stream|
  {
    var k := if sizes(n) == 0 then 1 else sizes(n);
    if |stream| <= k then
      assert [stream][..0] == [];
      [stream]
    else
      var rest := Recut(stream[k..], sizes, n + 1);
      JoinedCons(stream[..k], rest);
      assert stream == stream[..k] + stream[k..];
      [stream[..k]] + rest
  }

  lemma {:induction false} JoinedCons(first: Key, rest: seq<Key>)
    ensures Joined([first] + rest) == first + Joined(rest)
    decreases |rest|
  {
    var all := [first] + rest;
    var n := |rest|;
    if rest == [] {
      assert all[..n] == [] && all[n] == first;
    } else {
      JoinedCons(first, rest[..n - 1]);
      assert all[..n] == [first] + rest[..n - 1] && all[n] == rest[n - 1];
      assert first + Joined(rest[..n - 1]) + rest[n - 1] == first + (Joined(rest[..n - 1]) + rest[n - 1]);
    }
  }

  /**
   Messages sent in any buffers, given or lent, and received in any recut of what was sent, arrive
   as the same frames in the same order.
   */
  method Transmit(ms: seq<Msg>, lends: nat -> bool, sizes: nat -> nat, cuts: nat -> nat, max: int)
    returns (sent: seq<Key>, frames: seq<Frame>, ok: bool)
    requires forall n :: sizes(n) > 0
    requires forall i :: 0 <= i < |ms| ==> Fits(ms[i], max)
    ensures Joined(sent) == AllOnWire(ms) && WithinSizes(sent, lends, sizes)
    ensures ok && frames == FramesOf(ms) == FeedAll(START, max, Joined(sent)).frames
  {
    sent := Send(ms, lends, sizes);
    var decoder := new Decoder(max);
    frames, ok := Receive(decoder, Recut(Joined(sent), cuts, 0));
    StreamRoundTrip(max, ms);
  }

  // ---------------------------------------------------------------- commands

  /** What `process_command_message` makes of a command frame. */
  datatype CommandResult = Untouched | Flagged(kind: Kind) | Closed

  function ProcessCommand(body: Key): CommandResult {
    if |body| < 1 then Untouched
    else if |body| - 1 < body[0] then Untouched
    else
      var n := body[0];
      var name := body[1..1 + n];
      if n == 9 && name == SUB_CMD_NAME[1..] then Flagged(Subscribe)
      else if n == 6 && name == CANCEL_CMD_NAME[1..] then Flagged(Cancel)
      else if n == 4 && name == PING_CMD_NAME[1..] then Flagged(Ping)
      else if n == 4 && name == PONG_CMD_NAME[1..] then Flagged(Pong)
      else Closed
  }

  /** `command_body`, for a message that came with or without the command flag. */
  function CommandBody(m: Msg): Key {
    if m.kind == Ping || m.kind == Pong then if |m.data| >= 5 then m.data[5..] else []
    else if !m.command && (m.kind == Subscribe || m.kind == Cancel) then m.data
    else if m.kind == Subscribe then if |m.data| >= 10 then m.data[10..] else []
    else if m.kind == Cancel then if |m.data| >= 7 then m.data[7..] else []
    else []
  }

  lemma StartsWith(body: Key, name: Key)
    requires name != [] && name[0] == |name| - 1
    ensures name <= body <==> body != [] && body[0] == name[0] < |body| && body[1..1 + body[0]] == name[1..]
  {
    if body != [] && body[0] == name[0] < |body| && body[1..1 + body[0]] == name[1..] {
      assert forall i | 0 < i < |name| :: body[i] == body[1..1 + body[0]][i - 1] == name[1..][i - 1] == name[i];
    }
  }

  /** A command frame is taken for what its name says; without room for its name it is left alone. */
  lemma CommandIff(body: Key)
    ensures ProcessCommand(body) == Flagged(Subscribe) <==> [9] + Ascii("SUBSCRIBE") <= body
    ensures ProcessCommand(body) == Flagged(Cancel) <==> [6] + Ascii("CANCEL") <= body
    ensures ProcessCommand(body) == Flagged(Ping) <==> [4] + Ascii("PING") <= body
    ensures ProcessCommand(body) == Flagged(Pong) <==> [4] + Ascii("PONG") <= body
    ensures ProcessCommand(body) == Untouched <==> body == [] || |body| <= body[0]
  {
    CommandNames();
    StartsWith(body, SUB_CMD_NAME);
    StartsWith(body, CANCEL_CMD_NAME);
    StartsWith(body, PING_CMD_NAME);
    StartsWith(body, PONG_CMD_NAME);
    hide Ascii;
    assert PING_CMD_NAME[1..][1] != PONG_CMD_NAME[1..][1];
  }

  /** What follows the name is the body of a command that came over the wire. */
  lemma BodyAfterName(m: Msg, name: Key)
    requires m.command && m.kind != Plain && name <= m.data
    requires name == if m.kind == Subscribe then [9] + Ascii("SUBSCRIBE")
                     else if m.kind == Cancel then [6] + Ascii("CANCEL")
                     else if m.kind == Ping then [4] + Ascii("PING") else [4] + Ascii("PONG")
    ensures m.data == name + CommandBody(m)
  {
    assert m.data == name + m.data[|name|..];
  }

  /** Over the wire a subscription arrives as a subscription to the same topic, and so does a cancellation. */
  lemma TopicRoundTrip(d: Dec, max: int, m: Msg)
    requires Between(d) && Fits(m, max) && (m == InitSubscribe(m.data) || m == InitCancel(m.data))
    ensures var r := FeedAll(d, max, OnWire(m));
            && r.ok && |r.frames| == 1
            && var f := r.frames[0];
               && ProcessCommand(f.body) == Flagged(m.kind)
               && CommandBody(Msg(f.more, f.command, m.kind, f.body)) == m.data
    ensures CommandBody(m) == m.data
  {
    MsgRoundTrip(d, max, m);
    CommandIff(FrameOf(m).body);
    CommandNames();
  }
}
