/**
 `own_t` and the part of `socket_base_t` that takes part in shutdown: an object is destroyed once
 it is terminating, has processed every sequence-numbered command and has every ack it waits for.
 */
module Owns {
  import opened Bytes
  import opened MTries

  type Id = nat

  datatype State = State(terminating: bool, sent: nat, processed: nat, owner: Option<Id>, acks: nat,
                         owned: set<Id>, pipes: set<Pipe>, destroyed: bool)

  /** A new object, with no command sent to it yet. */
  function Fresh(owner: Option<Id>): State {
    State(false, 0, 0, owner, 0, {}, {}, false)
  }

  function CheckTermAcks(o: State): State {
    if o.terminating && o.processed == o.sent && o.acks == 0 then o.(destroyed := true) else o
  }

  function SeqnumOf(o: State): State {
    CheckTermAcks(o.(processed := o.processed + 1))
  }

  /** A child asks to be terminated. */
  function TermReqOf(o: State, child: Id): State {
    if o.terminating || child !in o.owned then o else o.(owned := o.owned - {child}, acks := o.acks + 1)
  }

  /** A launched child becomes owned, or is asked to terminate at once. */
  function OwnOf(o: State, child: Id): State {
    if o.terminating then o.(acks := o.acks + 1) else o.(owned := o.owned + {child})
  }

  /** A pipe is attached, and asked to terminate at once if the socket is. */
  function AttachOf(o: State, pipe: Pipe): State {
    o.(pipes := o.pipes + {pipe}, acks := if o.terminating then o.acks + 1 else o.acks)
  }

  function TermOf(o: State): State {
    CheckTermAcks(o.(acks := o.acks + |o.pipes| + |o.owned|, owned := {}, terminating := true))
  }

  function TermAckOf(o: State): State
    requires o.acks > 0
  {
    CheckTermAcks(o.(acks := o.acks - 1))
  }

  function PipeTerminatedOf(o: State, pipe: Pipe): State
    requires o.terminating ==> o.acks > 0
  {
    var r := o.(pipes := o.pipes - {pipe});
    if r.terminating then TermAckOf(r) else r
  }

  class Own {
    var terminating: bool
    var sentSeqnum: nat
    var processedSeqnum: nat
    const owner: Option<Id>
    var termAcks: nat
    var owned: set<Id>
    var pipes: set<Pipe>
    var destroyed: bool
    ghost var terms: seq<Id>        // the children that were sent `term`, in order
    ghost var closed: seq<Pipe>     // the pipes that were asked to terminate
    ghost var ackSent: nat          // how often `term_ack` was sent

    ghost function View(): State
      reads this
    {
      State(terminating, sentSeqnum, processedSeqnum, owner, termAcks, owned, pipes, destroyed)
    }

    /** Children are let go of when asked to terminate; the ack goes out at the end, once. */
    ghost predicate Valid()
      reads this
    {
      && Running()
      && (terminating ==> processedSeqnum != sentSeqnum || termAcks != 0)
    }

    ghost predicate Running()
      reads this
    {
      && !destroyed && ackSent == 0 && processedSeqnum <= sentSeqnum
      && (terminating ==> owned == {})
    }

    /** The end of every handler: either nothing more, or the end of the object. */
    ghost predicate Finished()
      reads this
    {
      && (!destroyed ==> Valid())
      && (destroyed ==> owned == {} && ackSent == if owner.Some? then 1 else 0)
    }

    constructor (owner: Option<Id>)
      ensures Valid() && View() == Fresh(owner) && terms == [] && closed == []
    {
      terminating, sentSeqnum, processedSeqnum := false, 0, 0;
      this.owner, termAcks, owned, pipes, destroyed := owner, 0, {}, {}, false;
      terms, closed, ackSent := [], [], 0;
    }

    method IncSeqnum()
      requires Valid()
      modifies this`sentSeqnum
      ensures Valid() && View() == old(View()).(sent := old(sentSeqnum) + 1)
    {
      sentSeqnum := sentSeqnum + 1;
    }

    method CheckAcks()
      requires Running()
      modifies this`destroyed, this`ackSent
      ensures View() == CheckTermAcks(old(View())) && Finished()
      ensures destroyed <==> terminating && processedSeqnum == sentSeqnum && termAcks == 0
    {
      if terminating && processedSeqnum == sentSeqnum && termAcks == 0 {
        assert owned == {};
        if owner.Some? {
          ackSent := ackSent + 1;
        }
        destroyed := true;
      }
    }

    method ProcessSeqnum()
      requires Running() && processedSeqnum < sentSeqnum
      modifies this`processedSeqnum, this`destroyed, this`ackSent
      ensures View() == SeqnumOf(old(View())) && Finished()
      ensures processedSeqnum == old(processedSeqnum) + 1
      ensures destroyed <==> terminating && processedSeqnum == sentSeqnum && termAcks == 0
    {
      processedSeqnum := processedSeqnum + 1;
      CheckAcks();
    }

    method ProcessTermReq(child: Id)
      requires Valid()
      modifies this`owned, this`termAcks, this`terms
      ensures Valid() && View() == TermReqOf(old(View()), child)
      ensures terms == old(terms) + if !terminating && child in old(owned) then [child] else []
      ensures owned == if terminating then old(owned) else old(owned) - {child}
      ensures termAcks == old(termAcks) + if !terminating && child in old(owned) then 1 else 0
    {
      if terminating {
        return;
      }
      if child !in owned {
        return;
      }
      owned := owned - {child};
      termAcks := termAcks + 1;
      terms := terms + [child];
    }

    /** The `own` command, with its sequence number. */
    method ProcessOwn(child: Id)
      requires Valid() && processedSeqnum < sentSeqnum
      modifies this`owned, this`termAcks, this`terms, this`processedSeqnum, this`destroyed, this`ackSent
      ensures View() == SeqnumOf(OwnOf(old(View()), child)) && Finished()
      ensures terms == old(terms) + if terminating then [child] else []
      ensures owned == old(owned) + if terminating then {} else {child}
      ensures termAcks == old(termAcks) + if terminating then 1 else 0
    {
      if terminating {
        termAcks := termAcks + 1;
        terms := terms + [child];
      } else {
        owned := owned + {child};
      }
      ProcessSeqnum();
    }

    /** A pipe is attached, and asked to terminate at once if the socket is terminating. */
    method AttachPipe(pipe: Pipe)
      requires Valid() && pipe !in pipes
      modifies this`pipes, this`termAcks, this`closed
      ensures Valid() && View() == AttachOf(old(View()), pipe)
      ensures closed == old(closed) + if terminating then [pipe] else []
      ensures pipes == old(pipes) + {pipe} && termAcks == old(termAcks) + if terminating then 1 else 0
    {
      pipes := pipes + {pipe};
      if terminating {
        termAcks := termAcks + 1;
        closed := closed + [pipe];
      }
    }

    /** The `bind` command: a pipe is attached, with a sequence number. */
    method ProcessBind(pipe: Pipe)
      requires Valid() && pipe !in pipes && processedSeqnum < sentSeqnum
      modifies this`pipes, this`termAcks, this`closed, this`processedSeqnum, this`destroyed, this`ackSent
      ensures View() == SeqnumOf(AttachOf(old(View()), pipe)) && Finished()
      ensures closed == old(closed) + if terminating then [pipe] else []
      ensures pipes == old(pipes) + {pipe} && termAcks == old(termAcks) + if terminating then 1 else 0
    {
      AttachPipe(pipe);
      ProcessSeqnum();
    }

    /** The `term` command: asks every pipe and every child to terminate, each once. */
    method ProcessTerm()
      requires Valid() && !terminating
      modifies this
      ensures View() == TermOf(old(View())) && Finished()
      ensures terminating && owned == {} && pipes == old(pipes)
      ensures termAcks == old(termAcks) + |old(pipes)| + |old(owned)|
      ensures exists cs :: terms == old(terms) + cs && Once(cs, old(owned))
      ensures exists ps :: closed == old(closed) + ps && Once(ps, old(pipes))
    {
      var ps := AskEach(pipes);
      closed := closed + ps;
      termAcks := termAcks + |pipes|;
      var cs := AskEach(owned);
      terms := terms + cs;
      termAcks := termAcks + |owned|;
      owned := {};
      terminating := true;
      CheckAcks();
    }

    /** A root object terminates itself, any other asks its owner. */
    method Terminate() returns (askOwner: bool)
      requires Valid()
      modifies this
      ensures View() == if old(terminating) || owner.Some? then old(View()) else TermOf(old(View()))
      ensures Finished() && (askOwner <==> !old(terminating) && owner.Some?)
    {
      if terminating {
        return false;
      }
      if owner == None {
        ProcessTerm();
        return false;
      }
      return true;
    }

    method ProcessTermAck()
      requires Valid() && termAcks > 0
      modifies this`termAcks, this`destroyed, this`ackSent
      ensures View() == TermAckOf(old(View())) && Finished()
      ensures termAcks == old(termAcks) - 1
    {
      termAcks := termAcks - 1;
      CheckAcks();
    }

    /** A pipe reports its end. */
    method PipeTerminated(pipe: Pipe)
      requires Valid() && pipe in pipes && (terminating ==> termAcks > 0)
      modifies this`pipes, this`termAcks, this`destroyed, this`ackSent
      ensures View() == PipeTerminatedOf(old(View()), pipe) && Finished()
      ensures pipes == old(pipes) - {pipe} && termAcks == old(termAcks) - if terminating then 1 else 0
    {
      pipes := pipes - {pipe};
      if terminating {
        ProcessTermAck();
      }
    }
  }

  /** Each member of a set once. */
  ghost predicate Once(s: seq<nat>, of: set<nat>) {
    && (forall i, j :: 0 <= i < j < |s| ==> s[i] != s[j])
    && (forall x :: x in of <==> x in s)
  }

  /** Walks through a set. */
  method AskEach(of: set<nat>) returns (s: seq<nat>)
    ensures Once(s, of)
  {
    s := [];
    var left := of;
    while left != {}
      invariant left <= of && Once(s, of - left)
      decreases |left|
    {
      var x :| x in left;
      s, left := s + [x], left - {x};
    }
  }
}
