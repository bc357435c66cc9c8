/**
 `mailbox_t`: many senders put commands into one queue, one receiver takes them out, and a signal
 wakes the receiver up. The signal is sent after the lock on the queue is given back.
 */
module Mailboxes {
  import opened Bytes
  import opened YPipes

  /**
   `raising` counts the senders that have given back the lock and are about to send the signal;
   `woken` is a receiver that has taken the signal and is about to read.
   */
  datatype Box<+T> = Box(queue: Queue<T>, active: bool, woken: bool, signals: nat, raising: nat)

  datatype Event<+T> =
    | Send(cmd: T)      // `write` and `flush` under the lock
    | Signal            // the sender's signal
    | Poll              // the active receiver reads
    | Take              // the passive receiver takes the signal
    | Read              // and reads

  function One(b: bool): nat {
    if b then 1 else 0
  }

  /** The constructor reads once, which puts the receiver to sleep. */
  function Initial<T>(): Box<T> {
    Box(Checked(Empty()), false, false, 0, 0)
  }

  predicate Possible<T>(b: Box<T>, e: Event<T>) {
    match e
    case Send(_) => true
    case Signal => b.raising > 0
    case Poll => b.active && !b.woken
    case Take => !b.active && !b.woken && b.signals > 0
    case Read => b.woken
  }

  function Step<T(==)>(b: Box<T>, e: Event<T>): Box<T>
    requires Possible(b, e)
  {
    match e
    case Send(x) =>
      var q := Written(b.queue, x, false);
      b.(queue := Flushed(q), raising := b.raising + One(WakesReader(q)))
    case Signal => b.(raising := b.raising - 1, signals := b.signals + 1)
    case Poll => b.(queue := Taken(b.queue), active := b.queue.pub != [])
    case Take => b.(signals := b.signals - 1, woken := true)
    case Read => b.(queue := Taken(b.queue), active := true, woken := false)
  }

  /** The command that an event hands to the receiver. */
  function Got<T(==)>(b: Box<T>, e: Event<T>): seq<T> {
    if (e.Poll? || e.Read?) && b.queue.pub != [] then [b.queue.pub[0]] else []
  }

  function Put<T>(e: Event<T>): seq<T> {
    if e.Send? then [e.cmd] else []
  }

  /**
   The receiver reads, sleeps, or has exactly one signal on its way; it sleeps only over an empty
   queue, and a signal is only on its way to a command.
   */
  ghost predicate Inv<T>(b: Box<T>) {
    && b.queue.pend == [] && b.queue.part == []
    && One(b.active) + One(b.queue.asleep) + One(b.woken) + b.signals + b.raising == 1
    && (b.queue.asleep ==> b.queue.pub == [])
    && (One(b.woken) + b.signals + b.raising == 1 ==> b.queue.pub != [])
  }

  lemma StepInv<T>(b: Box<T>, e: Event<T>)
    requires Inv(b) && Possible(b, e)
    ensures Inv(Step(b, e)) && (e.Read? ==> b.queue.pub != [])
    ensures b.queue.pub + Put(e) == Got(b, e) + Step(b, e).queue.pub
  {
  }

  /** What a run of events leads to, with all commands sent and received in it. */
  ghost predicate Reaches<T>(b: Box<T>, events: seq<Event<T>>, sent: seq<T>, got: seq<T>, c: Box<T>)
    decreases |events|
  {
    if events == [] then b == c && sent == [] && got == [] else
      var e := events[0];
      && Possible(b, e) && Put(e) <= sent && Got(b, e) <= got
      && Reaches(Step(b, e), events[1..], sent[|Put(e)|..], got[|Got(b, e)|..], c)
  }

  lemma Regroup<T>(a: seq<T>, p: seq<T>, s: seq<T>, x: seq<T>, b: seq<T>, g: seq<T>, c: seq<T>)
    requires a + p == x + b && b + s == g + c
    ensures a + (p + s) == (x + g) + c
  {
    assert a + (p + s) == (a + p) + s == (x + b) + s == x + (b + s) == x + (g + c) == (x + g) + c;
  }

  lemma {:induction false} RunInv<T>(b: Box<T>, events: seq<Event<T>>, sent: seq<T>, got: seq<T>, c: Box<T>)
    requires Inv(b) && Reaches(b, events, sent, got, c)
    ensures Inv(c) && b.queue.pub + sent == got + c.queue.pub
    decreases |events|
  {
    if events == [] {
      assert b.queue.pub + sent == b.queue.pub && got + c.queue.pub == c.queue.pub;
    } else {
      var e := events[0];
      StepInv(b, e);
      var b', s, g := Step(b, e), sent[|Put(e)|..], got[|Got(b, e)|..];
      assert sent == Put(e) + s && got == Got(b, e) + g;
      hide Inv, Possible, Step, Got, Put;
      RunInv(b', events[1..], s, g, c);
      Regroup(b.queue.pub, Put(e), s, Got(b, e), b'.queue.pub, g, c.queue.pub);
    }
  }

  /**
   In every run of any number of senders: at most one signal is pending or about to be sent, the
   read after a signal finds a command, a queued command never waits on a receiver that sleeps,
   and what was received is what was sent, in order, up to what is still queued.
   */
  lemma WakeUp<T>(events: seq<Event<T>>, sent: seq<T>, got: seq<T>, b: Box<T>)
    requires Reaches(Initial(), events, sent, got, b)
    ensures b.signals + b.raising <= 1
    ensures b.woken ==> b.queue.pub != []
    ensures b.queue.pub != [] ==> b.active || b.woken || b.signals + b.raising == 1
    ensures sent == got + b.queue.pub
  {
    RunInv(Initial(), events, sent, got, b);
    assert Initial<T>().queue.pub + sent == sent;
  }

  class Mailbox<T(==)> {
    const cpipe: YPipe<T>
    var active: bool
    var signals: nat
    var raising: nat

    ghost function View(): Box<T>
      requires cpipe.Valid()
      reads this, cpipe
    {
      Box(cpipe.View(), active, false, signals, raising)
    }

    ghost predicate Valid()
      reads this, cpipe
    {
      cpipe.Valid() && Inv(View())
    }

    constructor ()
      ensures Valid() && fresh(cpipe) && View() == Initial()
    {
      cpipe := new YPipe();
      active, signals, raising := false, 0, 0;
      new;
      var ok := cpipe.CheckRead();
      assert !ok;
    }

    /** The part of `send` under the lock; false if the sender then has to signal. */
    method SendLocked(cmd: T) returns (ok: bool)
      requires Valid()
      modifies cpipe, this`raising
      ensures Valid() && View() == Step(old(View()), Send(cmd))
      ensures ok <==> raising == old(raising)
    {
      StepInv(View(), Send(cmd));
      cpipe.Write(cmd, false);
      ok := cpipe.Flush();
      if !ok {
        raising := raising + 1;
      }
    }

    method RaiseSignal()
      requires Valid() && raising > 0
      modifies this`raising, this`signals
      ensures Valid() && View() == Step(old(View()), Signal)
    {
      raising, signals := raising - 1, signals + 1;
    }

    /** Receives a command if there is one and its signal, if it needs one, has been sent. */
    method Recv() returns (cmd: Option<T>)
      requires Valid()
      modifies cpipe, this`active, this`signals
      ensures Valid()
      ensures cmd.Some? <==> old(View()).queue.pub != [] && raising == 0
      ensures cmd.Some? ==> old(View()).queue.pub == [cmd.value] + View().queue.pub && active
      ensures cmd.None? ==> View().queue.pub == old(View()).queue.pub
      ensures cmd.None? ==> View().queue.asleep || raising == 1
    {
      if active {
        StepInv(View(), Poll);
        cmd := cpipe.Read();
        if cmd.Some? {
          return;
        }
        active := false;
      }
      if signals == 0 {
        return None;
      }
      StepInv(View(), Take);
      signals := signals - 1;
      active := true;
      cmd := cpipe.Read();
      assert cmd.Some?;
    }
  }
}
