/**
 `pipe_t`: one end of a pair of pipes. An end reads from its inbound queue, writes to its
 outbound queue and sends commands to the other end. The first part gives each operation as a
 function of what an end can see; the second is the class, proved against these functions.
 */
module Pipes {
  import opened Bytes
  import opened YPipes

  /** A message part, or the delimiter that marks the end of the stream. */
  datatype Item = Data(body: int, more: bool, routingId: bool) | Delimiter

  /** A part that completes a message that counts towards the watermarks. */
  predicate Counts(x: Item) {
    x.Data? && !x.more && !x.routingId
  }

  predicate Incomplete(x: Item) {
    x.Data? && x.more
  }

  datatype Command = ActivateRead | ActivateWrite(msgsRead: nat) | PipeTerm | PipeTermAck

  datatype State =
    | Active
    | DelimiterReceived
    | WaitingForDelimiter
    | TermAckSent
    | TermReqSent1
    | TermReqSent2

  datatype End = End(state: State, inActive: bool, outActive: bool, hasOut: bool, delay: bool,
                     hwm: int, lwm: int, msgsRead: nat, msgsWritten: nat, peersMsgsRead: nat, alive: bool)

  /** What one end can see: itself, its two queues and the commands it has sent. */
  datatype Local = Local(end: End, inq: Queue<Item>, outq: Queue<Item>, out: seq<Command>)

  /** Half of the high watermark, rounded towards zero as the source's division does. */
  function ComputeLwm(hwm: int): (lwm: int)
    ensures hwm > 0 ==> 0 < lwm <= hwm <= 2 * lwm <= hwm + 1
    ensures hwm <= 0 ==> lwm <= 0
  {
    if hwm + 1 >= 0 then (hwm + 1) / 2 else -((-(hwm + 1)) / 2)
  }

  function NewEnd(inHwm: int, outHwm: int): End {
    End(Active, true, true, true, true, outHwm, ComputeLwm(inHwm), 0, 0, 0, true)
  }

  predicate Readable(e: End) {
    e.inActive && (e.state == Active || e.state == WaitingForDelimiter)
  }

  predicate BelowHwm(e: End) {
    !(e.hwm > 0 && e.msgsWritten - e.peersMsgsRead >= e.hwm)
  }

  function Sent(l: Local, c: Command): Local {
    l.(out := l.out + [c])
  }

  /** The outbound pipe is dropped and the other end is told. */
  function Acked(l: Local, state: State): Local {
    Sent(l.(end := l.end.(state := state, hasOut := false)), PipeTermAck)
  }

  function RollbackOf(l: Local): Local {
    if l.end.hasOut then l.(outq := RolledBack(l.outq)) else l
  }

  function FlushOf(l: Local): Local {
    if l.end.state == TermAckSent || !l.end.hasOut then l
    else if WakesReader(l.outq) then Sent(l.(outq := Flushed(l.outq)), ActivateRead)
    else l.(outq := Flushed(l.outq))
  }

  function DelimiterOf(l: Local): Local {
    if l.end.state == Active then l.(end := l.end.(state := DelimiterReceived))
    else Acked(RollbackOf(l), TermAckSent)
  }

  function CheckReadOf(l: Local): Local {
    if !Readable(l.end) then l
    else if l.inq.pub == [] then l.(inq := Taken(l.inq), end := l.end.(inActive := false))
    else if l.inq.pub[0].Delimiter? then DelimiterOf(l.(inq := Taken(l.inq)))
    else l
  }

  /** The part `read` hands out, if any. */
  function ReadPart(l: Local): Option<Item> {
    if Readable(l.end) && l.inq.pub != [] && l.inq.pub[0].Data? then Some(l.inq.pub[0]) else None
  }

  function ReadOf(l: Local): Local {
    if !Readable(l.end) then l
    else if l.inq.pub == [] then l.(inq := Taken(l.inq), end := l.end.(inActive := false))
    else
      var x, l1 := l.inq.pub[0], l.(inq := Taken(l.inq));
      if x.Delimiter? then DelimiterOf(l1)
      else
        var n := l1.end.msgsRead + if Counts(x) then 1 else 0;
        var l2 := l1.(end := l1.end.(msgsRead := n));
        if l2.end.lwm > 0 && n % l2.end.lwm == 0 then Sent(l2, ActivateWrite(n)) else l2
  }

  predicate Writable(e: End) {
    e.outActive && e.state == Active && BelowHwm(e)
  }

  function CheckWriteOf(l: Local): Local {
    if l.end.outActive && l.end.state == Active && !BelowHwm(l.end) then l.(end := l.end.(outActive := false)) else l
  }

  function WriteOf(l: Local, x: Item): Local {
    if !Writable(l.end) then CheckWriteOf(l)
    else
      var n := l.end.msgsWritten + if Counts(x) then 1 else 0;
      l.(outq := Written(l.outq, x, Incomplete(x)), end := l.end.(msgsWritten := n))
  }

  /** The change of state on `terminate`, for an end on which it has an effect. */
  function StopOf(l: Local): Local {
    match l.end.state
    case WaitingForDelimiter => if l.end.delay then l else Acked(RollbackOf(l), TermAckSent)
    case _ => Sent(l.(end := l.end.(state := TermReqSent1)), PipeTerm)
  }

  /** The end of the outbound stream: unfinished messages go and the delimiter is written. */
  function CloseOf(l: Local): Local {
    var l1 := l.(end := l.end.(outActive := false));
    if l1.end.hasOut then FlushOf(l1.(outq := Written(RolledBack(l1.outq), Delimiter, false))) else l1
  }

  function TerminateOf(l: Local, delay: bool): Local {
    var l1 := l.(end := l.end.(delay := delay));
    if l.end.state in {TermReqSent1, TermReqSent2, TermAckSent} then l1 else CloseOf(StopOf(l1))
  }

  /** The states in which each command may arrive: the source asserts them. */
  predicate Expects(e: End, c: Command) {
    match c
    case PipeTerm => e.state in {Active, DelimiterReceived, TermReqSent1}
    case PipeTermAck => e.state in {TermReqSent1, TermAckSent, TermReqSent2}
    case _ => true
  }

  function ProcessOf(l: Local, c: Command): Local {
    match c
    case ActivateRead =>
      if !l.end.inActive && l.end.state in {Active, WaitingForDelimiter} then l.(end := l.end.(inActive := true)) else l
    case ActivateWrite(n) =>
      var e := l.end.(peersMsgsRead := n);
      l.(end := if !e.outActive && e.state == Active then e.(outActive := true) else e)
    case PipeTerm =>
      (match l.end.state
       case Active => if l.end.delay then l.(end := l.end.(state := WaitingForDelimiter)) else Acked(l, TermAckSent)
       case DelimiterReceived => Acked(l, TermAckSent)
       case _ => Acked(l, TermReqSent2))
    case PipeTermAck =>
      var l1 := if l.end.state == TermReqSent1 then Acked(l, TermReqSent1) else l;
      l1.(inq := l1.inq.(pub := [], asleep := true), end := l1.end.(alive := false))
  }

  // --------------------------------------------------------------- the class

  /** The mailbox of the other end. */
  class Outbox {
    var sent: seq<Command>

    constructor ()
      ensures sent == []
    {
      sent := [];
    }

    method Send(c: Command)
      modifies this
      ensures sent == old(sent) + [c]
    {
      sent := sent + [c];
    }
  }

  class Pipe {
    const inPipe: YPipe<Item>
    var outPipe: YPipe?<Item>
    ghost const outQueue: YPipe<Item>
    const peer: Outbox
    var state: State
    var inActive: bool
    var outActive: bool
    var delay: bool
    const hwm: int
    const lwm: int
    var msgsRead: nat
    var msgsWritten: nat
    var peersMsgsRead: nat
    ghost var alive: bool

    ghost predicate Valid()
      reads this, inPipe, outQueue
    {
      && (outPipe == null || outPipe == outQueue)
      && inPipe != outQueue
      && inPipe.Valid() && outQueue.Valid()
      && (state == Active ==> outPipe != null)
    }

    ghost function View(): Local
      requires Valid()
      reads this, inPipe, outQueue, peer
    {
      Local(End(state, inActive, outActive, outPipe != null, delay, hwm, lwm,
                msgsRead, msgsWritten, peersMsgsRead, alive),
            inPipe.View(), outQueue.View(), peer.sent)
    }

    /** The end is active, not blocked, and below its watermark or without one. */
    predicate MayWrite()
      reads this
    {
      outActive && state == Active && (hwm <= 0 || msgsWritten - peersMsgsRead < hwm)
    }

    /** The end is awake and in a state in which messages are read. */
    predicate MayRead()
      reads this
    {
      inActive && (state == Active || state == WaitingForDelimiter)
    }

    constructor (inPipe: YPipe<Item>, outPipe: YPipe<Item>, peer: Outbox, inHwm: int, outHwm: int)
      requires inPipe != outPipe && inPipe.Valid() && outPipe.Valid()
      ensures Valid() && this.inPipe == inPipe && this.outPipe == outPipe == outQueue && this.peer == peer
      ensures View().end == NewEnd(inHwm, outHwm)
      ensures state == Active && inActive && outActive && delay && alive && hwm == outHwm && lwm == ComputeLwm(inHwm)
      ensures msgsRead == msgsWritten == peersMsgsRead == 0
    {
      this.inPipe, this.outPipe, this.outQueue, this.peer := inPipe, outPipe, outPipe, peer;
      inActive, outActive := true, true;
      hwm, lwm := outHwm, ComputeLwm(inHwm);
      msgsRead, msgsWritten, peersMsgsRead := 0, 0, 0;
      state, delay, alive := Active, true, true;
    }

    /** Removes the incomplete message from the outbound pipe. */
    method Rollback()
      requires Valid()
      modifies outQueue
      ensures Valid() && View() == RollbackOf(old(View()))
      ensures var q, q' := old(outQueue.View()), outQueue.View();
        q'.pub == q.pub && q'.pend == q.pend && q'.part == if outPipe == null then q.part else []
    {
      if outPipe != null {
        var x := outPipe.Unwrite();
        while x.Some?
          invariant Valid()
          invariant outQueue.View() == if x.None? then RolledBack(old(outQueue.View())) else outQueue.View()
          invariant outQueue.View().(part := []) == old(outQueue.View()).(part := [])
          invariant x.None? ==> outQueue.View().part == []
          decreases |outQueue.View().part|, if x.Some? then 1 else 0
        {
          x := outPipe.Unwrite();
        }
      }
    }

    method Flush()
      requires Valid()
      modifies outQueue, peer
      ensures Valid() && View() == FlushOf(old(View()))
      ensures outPipe != null && state != TermAckSent ==>
                var q, q' := old(outQueue.View()), outQueue.View();
                && q'.pub == q.pub + q.pend && q'.pend == [] && q'.part == q.part
                && (q.pend != [] ==> !q'.asleep)
                && peer.sent == old(peer.sent) + if q.asleep && q.pend != [] then [ActivateRead] else []
      ensures outPipe == null || state == TermAckSent ==>
                outQueue.View() == old(outQueue.View()) && peer.sent == old(peer.sent)
    {
      if state == TermAckSent {
        return;
      }
      if outPipe != null {
        var ok := outPipe.Flush();
        if !ok {
          peer.Send(ActivateRead);
        }
      }
    }

    method ProcessDelimiter()
      requires Valid()
      requires state == Active || state == WaitingForDelimiter
      modifies this, outQueue, peer
      ensures Valid() && View() == DelimiterOf(old(View()))
      ensures old(state) == Active ==>
                state == DelimiterReceived && outPipe == old(outPipe) && peer.sent == old(peer.sent)
      ensures old(state) == WaitingForDelimiter ==>
                state == TermAckSent && outPipe == null && peer.sent == old(peer.sent) + [PipeTermAck]
    {
      if state == Active {
        state := DelimiterReceived;
      } else {
        Rollback();
        outPipe := null;
        peer.Send(PipeTermAck);
        state := TermAckSent;
      }
    }

    method CheckRead() returns (ok: bool)
      requires Valid()
      modifies this, inPipe, outQueue, peer
      ensures Valid() && View() == CheckReadOf(old(View()))
      ensures var q := old(inPipe.View());
        && (ok <==> old(MayRead()) && q.pub != [] && q.pub[0].Data?)
        && (ok ==> inPipe.View().pub == q.pub && state == old(state) && inActive)
        && (old(MayRead()) && q.pub == [] ==> !inActive && inPipe.View().asleep)
    {
      hide YPipe.Valid, YPipe.View;
      if !inActive || (state != Active && state != WaitingForDelimiter) {
        return false;
      }
      var some := inPipe.CheckRead();
      if !some {
        inActive := false;
        return false;
      }
      var first := inPipe.Probe();
      if first.Delimiter? {
        var x := inPipe.Read();
        assert x.Some?;
        ProcessDelimiter();
        return false;
      }
      return true;
    }

    method Read() returns (msg: Option<Item>)
      requires Valid()
      modifies this, inPipe, outQueue, peer
      ensures Valid() && View() == ReadOf(old(View())) && msg == ReadPart(old(View()))
      ensures var q := old(inPipe.View());
        && (msg.Some? <==> old(MayRead()) && q.pub != [] && q.pub[0].Data?)
        && (msg.Some? ==> q.pub == [msg.value] + inPipe.View().pub)
        && (old(MayRead()) && q.pub == [] ==> !inActive && inPipe.View().asleep)
        && (old(MayRead()) && q.pub != [] && q.pub[0].Delimiter? ==> state in {DelimiterReceived, TermAckSent})
      ensures msg.Some? ==>
                && msgsRead == old(msgsRead) + (if Counts(msg.value) then 1 else 0)
                && peer.sent == old(peer.sent)
                                + if lwm > 0 && msgsRead % lwm == 0 then [ActivateWrite(msgsRead)] else []
    {
      hide YPipe.Valid, YPipe.View, DelimiterOf;
      if !inActive || (state != Active && state != WaitingForDelimiter) {
        return None;
      }
      msg := inPipe.Read();
      if msg.None? {
        inActive := false;
        return None;
      }
      if msg.value.Delimiter? {
        ProcessDelimiter();
        return None;
      }
      if !msg.value.more && !msg.value.routingId {
        msgsRead := msgsRead + 1;
      }
      if lwm > 0 && msgsRead % lwm == 0 {
        peer.Send(ActivateWrite(msgsRead));
      }
    }

    method CheckWrite() returns (ok: bool)
      requires Valid()
      modifies this`outActive
      ensures Valid() && View() == CheckWriteOf(old(View()))
      ensures ok <==> old(MayWrite())
      ensures outActive <==> old(outActive) && (state == Active ==> ok)
    {
      if !outActive || state != Active {
        return false;
      }
      var full := hwm > 0 && msgsWritten - peersMsgsRead >= hwm;
      if full {
        outActive := false;
        return false;
      }
      return true;
    }

    method Write(msg: Item) returns (ok: bool)
      requires Valid() && msg.Data?
      modifies this, outQueue
      ensures Valid() && View() == WriteOf(old(View()), msg)
      ensures ok <==> old(MayWrite())
      ensures var q, q' := old(outQueue.View()), outQueue.View();
        if !ok then q' == q && msgsWritten == old(msgsWritten)
        else
          && q'.pub == q.pub && q'.pend + q'.part == q.pend + q.part + [msg] && (q'.part == [] <==> !msg.more)
          && msgsWritten == old(msgsWritten) + if Counts(msg) then 1 else 0
    {
      ok := CheckWrite();
      if !ok {
        return;
      }
      outPipe.Write(msg, msg.more);
      if !msg.more && !msg.routingId {
        msgsWritten := msgsWritten + 1;
      }
    }

    method Terminate(delay_: bool)
      requires Valid()
      modifies this, outQueue, peer
      ensures Valid() && View() == TerminateOf(old(View()), delay_) && delay == delay_
      ensures old(state) in {Active, DelimiterReceived} ==>
                state == TermReqSent1 && old(peer.sent) + [PipeTerm] <= peer.sent
      ensures old(state) == WaitingForDelimiter ==> state == if delay_ then WaitingForDelimiter else TermAckSent
      ensures old(state) == WaitingForDelimiter && !delay_ ==>
                outPipe == null && peer.sent == old(peer.sent) + [PipeTermAck]
      ensures old(state) in {TermAckSent, TermReqSent1, TermReqSent2} ==>
                state == old(state) && peer.sent == old(peer.sent) && outQueue.View() == old(outQueue.View())
      ensures old(state) !in {TermAckSent, TermReqSent1, TermReqSent2} && outPipe != null ==>
                var q, q' := old(outQueue.View()), outQueue.View();
                q'.pub == q.pub + q.pend + [Delimiter] && q'.pend == [] && q'.part == []
    {
      delay := delay_;
      if state == TermReqSent1 || state == TermReqSent2 {
        return;
      }
      if state == TermAckSent {
        return;
      }
      hide YPipe.Valid, YPipe.View, FlushOf, RolledBack, Written;
      Stop();
      Close();
    }

    method Stop()
      requires Valid() && state in {Active, WaitingForDelimiter, DelimiterReceived}
      modifies this, outQueue, peer
      ensures Valid() && View() == StopOf(old(View()))
      ensures outPipe != null ==> outQueue.View() == old(outQueue.View())
      ensures old(state) in {Active, DelimiterReceived} ==>
                state == TermReqSent1 && outPipe == old(outPipe) && peer.sent == old(peer.sent) + [PipeTerm]
      ensures old(state) == WaitingForDelimiter && delay ==>
                state == WaitingForDelimiter && outPipe == old(outPipe) && peer.sent == old(peer.sent)
      ensures old(state) == WaitingForDelimiter && !delay ==>
                state == TermAckSent && outPipe == null && peer.sent == old(peer.sent) + [PipeTermAck]
    {
      hide YPipe.Valid, YPipe.View;
      if state == Active {
        peer.Send(PipeTerm);
        state := TermReqSent1;
      } else if state == WaitingForDelimiter && !delay {
        Rollback();
        outPipe := null;
        peer.Send(PipeTermAck);
        state := TermAckSent;
      } else if state == WaitingForDelimiter {
      } else if state == DelimiterReceived {
        peer.Send(PipeTerm);
        state := TermReqSent1;
      } else {
        assert false;
      }
    }

    method Close()
      requires Valid() && state != Active
      modifies this`outActive, outQueue, peer
      ensures Valid() && View() == CloseOf(old(View())) && old(peer.sent) <= peer.sent
      ensures outPipe == null ==> peer.sent == old(peer.sent)
      ensures outPipe != null && state != TermAckSent ==>
                var q, q' := old(outQueue.View()), outQueue.View();
                q'.pub == q.pub + q.pend + [Delimiter] && q'.pend == [] && q'.part == []
    {
      hide YPipe.Valid, YPipe.View;
      outActive := false;
      if outPipe != null {
        Rollback();
        outPipe.Write(Delimiter, false);
        Flush();
      }
    }

    /** `set_nodelay`: a termination does not wait for what has not been read. */
    method SetNoDelay()
      requires Valid()
      modifies this`delay
      ensures Valid() && !delay && View() == old(View()).(end := old(View()).end.(delay := false))
    {
      delay := false;
    }

    method ProcessActivateRead()
      requires Valid()
      modifies this`inActive
      ensures Valid() && View() == ProcessOf(old(View()), ActivateRead)
      ensures inActive <==> old(inActive) || state == Active || state == WaitingForDelimiter
    {
      if !inActive && (state == Active || state == WaitingForDelimiter) {
        inActive := true;
      }
    }

    method ProcessActivateWrite(n: nat)
      requires Valid()
      modifies this`peersMsgsRead, this`outActive
      ensures Valid() && View() == ProcessOf(old(View()), ActivateWrite(n))
      ensures peersMsgsRead == n && (outActive <==> old(outActive) || state == Active)
    {
      peersMsgsRead := n;
      if !outActive && state == Active {
        outActive := true;
      }
    }

    method ProcessPipeTerm()
      requires Valid() && Expects(View().end, PipeTerm)
      modifies this, peer
      ensures Valid() && View() == ProcessOf(old(View()), PipeTerm)
      ensures old(state) == Active && delay ==>
                state == WaitingForDelimiter && outPipe == old(outPipe) && peer.sent == old(peer.sent)
      ensures !(old(state) == Active && delay) ==>
                && state == (if old(state) == TermReqSent1 then TermReqSent2 else TermAckSent)
                && outPipe == null && peer.sent == old(peer.sent) + [PipeTermAck]
    {
      if state == Active {
        if delay {
          state := WaitingForDelimiter;
        } else {
          state := TermAckSent;
          outPipe := null;
          peer.Send(PipeTermAck);
        }
      } else if state == DelimiterReceived {
        state := TermAckSent;
        outPipe := null;
        peer.Send(PipeTermAck);
      } else if state == TermReqSent1 {
        state := TermReqSent2;
        outPipe := null;
        peer.Send(PipeTermAck);
      }
    }

    method ProcessPipeTermAck()
      requires Valid() && Expects(View().end, PipeTermAck)
      modifies this, peer, inPipe
      ensures Valid() && View() == ProcessOf(old(View()), PipeTermAck)
      ensures !alive && inPipe.View().pub == []
      ensures peer.sent == old(peer.sent) + if old(state) == TermReqSent1 then [PipeTermAck] else []
    {
      hide YPipe.Valid, YPipe.View;
      if state == TermReqSent1 {
        outPipe := null;
        peer.Send(PipeTermAck);
      } else {
        assert state == TermAckSent || state == TermReqSent2;
      }
      inPipe.Drain();
      alive := false;
    }
  }
}
