/** ZMTP framing: messages, their frames on the wire, and the incremental v3.1 encoder over buffers of any size. */
module Zmtp {
  import opened Bytes
  import opened Wire

  /** The command type bits of a message. */
  datatype Kind = Plain | Subscribe | Cancel | Ping | Pong

  datatype Msg = Msg(more: bool, command: bool, kind: Kind, data: Key)

  function InitSubscribe(topic: Key): Msg {
    Msg(false, false, Subscribe, topic)
  }

  function InitCancel(topic: Key): Msg {
    Msg(false, false, Cancel, topic)
  }

  /** The length byte and name that start a SUBSCRIBE command. */
  const SUB_CMD_NAME: Key := [9, 83, 85, 66, 83, 67, 82, 73, 66, 69]

  /** The length byte and name that start a CANCEL command. */
  const CANCEL_CMD_NAME: Key := [6, 67, 65, 78, 67, 69, 76]

  const PING_CMD_NAME: Key := [4, 80, 73, 78, 71]
  const PONG_CMD_NAME: Key := [4, 80, 79, 78, 71]

  function CommandName(kind: Kind): Key {
    match kind
    case Subscribe => SUB_CMD_NAME
    case Cancel => CANCEL_CMD_NAME
    case _ => []
  }

  /** What a message is on the wire: flags, length, and the body with the name of its command. */
  function Header(m: Msg): Key {
    var size := |m.data| + |CommandName(m.kind)|;
    var command := m.command || m.kind == Subscribe || m.kind == Cancel;
    [FlagsByte(m.more, size > 255, command)]
    + (if size > 255 then PutUint64(size) else [size])
    + CommandName(m.kind)
  }

  function OnWire(m: Msg): Key {
    Header(m) + m.data
  }

  function AllOnWire(ms: seq<Msg>): Key {
    if ms == [] then [] else AllOnWire(ms[..|ms| - 1]) + OnWire(ms[|ms| - 1])
  }

  function Ascii(name: string): Key
    requires forall i | 0 <= i < |name| :: name[i] < 128 as char
  {
    seq(|name|, i requires 0 <= i < |name| => name[i] as Byte)
  }

  /** The names of the commands, each behind its length. */
  lemma CommandNames()
    ensures SUB_CMD_NAME == [9] + Ascii("SUBSCRIBE") && CANCEL_CMD_NAME == [6] + Ascii("CANCEL")
    ensures PING_CMD_NAME == [4] + Ascii("PING") && PONG_CMD_NAME == [4] + Ascii("PONG")
  {
  }

  /**
   The frame of a message as the "Framing" section of 37/ZMTP lays it out: bits 0, 1 and 2 of the
   first byte for more, long and command, the size in one byte or in eight with the most significant
   first, and the body, which for the two commands starts with the length and the name.
   */
  lemma FrameLayout(m: Msg)
    ensures var name := if m.kind == Subscribe then [9] + Ascii("SUBSCRIBE")
                        else if m.kind == Cancel then [6] + Ascii("CANCEL") else [];
            var size, w := |name| + |m.data|, OnWire(m);
      && w != [] && w[0] == (if m.more then 1 else 0) + (if size > 255 then 2 else 0)
                            + (if m.command || name != [] then 4 else 0)
      && (size <= 255 ==> w[1..] == [size] + name + m.data)
      && (size > 255 ==> |w| == 9 + size && w[9..] == name + m.data)
      && (size > 255 ==> forall i | 1 <= i <= 8 :: w[i] == size / Power256(8 - i) % 256)
  {
    hide PutUint64, Ascii, Power256;
    CommandNames();
    var name, size := CommandName(m.kind), |CommandName(m.kind)| + |m.data|;
    var len := if size > 255 then PutUint64(size) else [size];
    assert OnWire(m) == [Header(m)[0]] + len + (name + m.data);
    ThreeParts(Header(m)[0], len, name + m.data);
    BigEndian(size);
    assert [size] + (name + m.data) == [size] + name + m.data;
  }

  lemma ThreeParts(flags: Byte, len: Key, body: Key)
    ensures var w := [flags] + len + body;
      && w[0] == flags && w[1..] == len + body && w[1 + |len|..] == body
      && forall i | 1 <= i <= |len| :: w[i] == len[i - 1]
  {
  }

  /** Taking bytes off what is left and adding them to what is done. */
  lemma MoveOver(done: Key, chunk: Key, left: Key)
    ensures done + (chunk + left) == (done + chunk) + left
  {
  }

  // ------------------------------------------------------------- the encoder

  datatype EncoderStep = EncodeMessage | EncodeBody

  class Encoder {
    const bufSize: nat
    var toWrite: Key                  // the bytes `m_write_pos` and `m_to_write` stand for
    var next: EncoderStep
    var newMsg: bool
    var inProgress: Option<Msg>
    ghost var loaded: seq<Msg>        // every message loaded so far
    ghost var written: Key            // every byte handed out so far

    /** What is left of the message in progress. */
    ghost function Pending(): Key
      reads this
    {
      if inProgress.None? then [] else toWrite + if next == EncodeBody then inProgress.value.data else []
    }

    /** The bytes handed out, and those still to come, are those of the messages loaded. */
    ghost predicate Valid()
      reads this
    {
      && (next == EncodeBody <==> !newMsg)
      && (inProgress.None? ==> toWrite == [] && next == EncodeMessage)
      && written + Pending() == AllOnWire(loaded)
    }

    constructor (bufSize: nat)
      ensures Valid() && inProgress.None? && loaded == [] && written == [] && this.bufSize == bufSize
    {
      this.bufSize := bufSize;
      toWrite, next, newMsg, inProgress := [], EncodeMessage, true, None;
      loaded, written := [], [];
    }

    /** `message_ready`: the flags, the length and the name of the command. */
    method MessageReady()
      requires inProgress.Some?
      modifies this`toWrite, this`next, this`newMsg
      ensures toWrite == Header(inProgress.value) && next == EncodeBody && !newMsg
    {
      var m := inProgress.value;
      var size := |m.data|;
      var more, command, large := m.more, false, false;
      if m.command || m.kind == Subscribe || m.kind == Cancel {
        command := true;
        if m.kind == Subscribe {
          size := size + 10;
        } else if m.kind == Cancel {
          size := size + 7;
        }
      }
      if size > 255 {
        large := true;
      }
      var tmp := [FlagsByte(more, large, command)];
      if size > 255 {
        tmp := tmp + PutUint64(size);
      } else {
        tmp := tmp + [size];
      }
      if m.kind == Subscribe {
        tmp := tmp + SUB_CMD_NAME;
      } else if m.kind == Cancel {
        tmp := tmp + CANCEL_CMD_NAME;
      }
      toWrite, next, newMsg := tmp, EncodeBody, false;
    }

    /** `size_ready`: the body. */
    method SizeReady()
      requires inProgress.Some?
      modifies this`toWrite, this`next, this`newMsg
      ensures toWrite == inProgress.value.data && next == EncodeMessage && newMsg
      ensures old(toWrite) == [] && old(next) == EncodeBody ==> Pending() == old(Pending())
    {
      toWrite, next, newMsg := inProgress.value.data, EncodeMessage, true;
    }

    method LoadMsg(m: Msg)
      requires Valid() && inProgress.None?
      modifies this
      ensures Valid() && inProgress == Some(m)
      ensures loaded == old(loaded) + [m] && written == old(written)
    {
      hide Header;
      inProgress := Some(m);
      MessageReady();
      loaded := loaded + [m];
      assert loaded[..|loaded| - 1] == old(loaded);
      assert written + (toWrite + m.data) == written + toWrite + m.data;
    }

    /** Moves bytes to the buffer, as many as there are or as it has room for. */
    method Copy(room: nat) returns (chunk: Key)
      requires inProgress.Some?
      modifies this`toWrite
      ensures chunk + Pending() == old(Pending())
      ensures |chunk| <= room && (toWrite == [] || |chunk| == room)
      ensures room > 0 && old(toWrite) != [] ==> chunk != []
    {
      var toCopy := if |toWrite| < room then |toWrite| else room;
      chunk := toWrite[..toCopy];
      toWrite := toWrite[toCopy..];
    }

    /** Fills a buffer from the message in progress. */
    method Fill(given: bool, bufferSize: nat) returns (out: Key)
      requires inProgress.Some? && (next == EncodeBody <==> !newMsg)
      modifies this`toWrite, this`next, this`newMsg, this`inProgress
      ensures out + Pending() == old(Pending())
      ensures next == EncodeBody <==> !newMsg
      ensures inProgress == old(inProgress) || (inProgress.None? && toWrite == [] && next == EncodeMessage)
      ensures given ==> |out| <= bufferSize
      ensures |out| < bufferSize ==> inProgress.None?
    {
      hide Header, OnWire, AllOnWire, Encoder.Valid;
      out := [];
      ghost var total := Pending();
      while |out| < bufferSize
        invariant inProgress == old(inProgress)
        invariant next == EncodeBody <==> !newMsg
        invariant out + Pending() == total
        invariant |out| <= bufferSize
        decreases bufferSize - |out|, newMsg == false, toWrite != []
      {
        if toWrite == [] {
          if newMsg {
            inProgress := None;
            break;
          }
          SizeReady();
        }
        assert out + Pending() == total;
        if out == [] && !given && |toWrite| >= bufferSize {
          out := toWrite;
          toWrite := [];
          assert out + Pending() == total;
          break;
        }
        var chunk := Copy(bufferSize - |out|);
        MoveOver(out, chunk, Pending());
        out := out + chunk;
      }
    }

    /**
     Hands out the next bytes: into a buffer of the given size, or, when none is given, into the
     encoder's own buffer or straight from the message. A buffer that is not filled means that the
     message is finished.
     */
    method Encode(given: bool, size: nat) returns (out: Key)
      requires Valid()
      modifies this
      ensures Valid() && loaded == old(loaded)
      ensures written == old(written) + out
      ensures inProgress == old(inProgress) || inProgress.None?
      ensures given ==> |out| <= size
      ensures |out| < (if given then size else bufSize) ==> inProgress.None?
    {
      hide AllOnWire;
      out := [];
      if inProgress.None? {
        return;
      }
      out := Fill(given, if given then size else bufSize);
      MoveOver(written, out, Pending());
      written := written + out;
    }
  }
}
