/**
 `xpub_t` without its optional modes: it reads requests from its pipes, tells its application
 about them, and sends every message to the pipes with a subscription to it.
 */
module XPubs {
  import opened Bytes
  import opened MTries
  import opened MTrieRemoval
  import opened PipeArrays
  import opened Dists
  import opened Msgs
  import opened Zmtp
  import ZmtpDecoder
  import opened PubSub

  /** Every subscriber is one of these pipes. */
  ghost predicate Known(s: Subs, pipes: set<Pipe>) {
    forall k | k in s :: s[k] <= pipes
  }

  lemma HeardKnown(s: Subs, p: Pipe, m: Msg, pipes: set<Pipe>)
    requires Known(s, pipes) && p in pipes
    ensures Known(Heard(s, p, m), pipes)
  {
  }

  lemma {:induction false} HeardAllKnown(s: Subs, p: Pipe, msgs: seq<Msg>, pipes: set<Pipe>)
    requires Known(s, pipes) && p in pipes
    ensures Known(HeardAll(s, p, msgs), pipes)
  {
    if msgs != [] {
      var before := msgs[..|msgs| - 1];
      HeardAllKnown(s, p, before, pipes);
      HeardKnown(HeardAll(s, p, before), p, msgs[|msgs| - 1], pipes);
    }
  }

  lemma DroppedKnown(s: Subs, p: Pipe, pipes: set<Pipe>)
    requires Known(s, pipes)
    ensures Known(Dropped(s, p), pipes - {p})
  {
  }

  lemma InterestedKnown(s: Subs, data: Key, pipes: set<Pipe>)
    requires Known(s, pipes)
    ensures Interested(s, data) <= pipes
  {
  }

  ghost function Union(calls: seq<set<Pipe>>): set<Pipe> {
    set i, p | 0 <= i < |calls| && p in calls[i] :: p
  }

  lemma UnionStep(calls: seq<set<Pipe>>, i: nat)
    requires i < |calls|
    ensures Union(calls[..i + 1]) == Union(calls[..i]) + calls[i] && calls[i] <= Union(calls)
  {
  }

  /** What a request does, by its topic and kind. */
  lemma RequestIs(s: Subs, p: Pipe, m: Msg, topic: Key, subscribe: bool)
    requires XPubReads(m) == if subscribe then Add(topic) else Drop(topic)
    ensures Heard(s, p, m) == if subscribe then Subscribed(s, topic, p) else Cancelled(s, topic, p)
    ensures var notify := if subscribe then topic !in s else RmOutcome(s, topic, p) != ValuesRemain;
      && Notes(s, p, m) == (if notify then [[if subscribe then 1 else 0] + topic] else [])
      && NoteFlags(s, p, m) == if notify then [false] else []
  {
  }

  lemma UserIs(s: Subs, p: Pipe, m: Msg)
    requires XPubReads(m) == User
    ensures Heard(s, p, m) == s && Notes(s, p, m) == [m.data] && NoteFlags(s, p, m) == [m.more]
  {
  }

  class XPub {
    const subscriptions: MTrie
    const dist: Dist
    var moreSend: bool
    var pendingData: seq<Key>
    var pendingFlags: seq<bool>     // whether more parts follow
    ghost var notes: seq<Key>       // all that was ever queued
    ghost var taken: seq<Key>       // what the application has received of it

    ghost predicate Valid()
      reads this, subscriptions, subscriptions.tree, dist, dist.pipes
    {
      && subscriptions.Valid() && dist.Valid()
      && Known(subscriptions.Subs(), dist.All())
      && moreSend == dist.more && (dist.more ==> !dist.toAll)
      && Queued()
    }

    ghost predicate Queued()
      reads this
    {
      notes == taken + pendingData && |pendingFlags| == |pendingData|
    }

    constructor ()
      ensures Valid() && fresh(subscriptions) && fresh(subscriptions.tree) && fresh(dist) && fresh(dist.pipes)
      ensures subscriptions.Subs() == map[] && notes == [] && dist.All() == {}
    {
      subscriptions := new MTrie();
      dist := new Dist();
      moreSend := false;
      pendingData, pendingFlags, notes, taken := [], [], [], [];
    }

    method Queue(data: Key, more: bool)
      requires Queued()
      modifies this`pendingData, this`pendingFlags, this`notes
      ensures Queued() && notes == old(notes) + [data]
      ensures pendingData == old(pendingData) + [data] && pendingFlags == old(pendingFlags) + [more]
    {
      pendingData := pendingData + [data];
      pendingFlags := pendingFlags + [more];
      notes := notes + [data];
    }

    /** One turn of the read loop. */
    method Process(p: Pipe, m: Msg)
      requires subscriptions.Valid() && Queued()
      modifies this`pendingData, this`pendingFlags, this`notes, subscriptions, subscriptions.tree
      ensures subscriptions.Valid() && Queued()
      ensures subscriptions.Subs() == Heard(old(subscriptions.Subs()), p, m)
      ensures notes == old(notes) + Notes(old(subscriptions.Subs()), p, m)
      ensures pendingFlags == old(pendingFlags) + NoteFlags(old(subscriptions.Subs()), p, m)
      ensures m.kind == Plain && (m.data == [] || m.data[0] > 1) ==>
                && pendingData == old(pendingData) + [m.data] && pendingFlags == old(pendingFlags) + [m.more]
                && subscriptions.Subs() == old(subscriptions.Subs())
    {
      hide MTrie.Valid, MTrie.Subs, Heard, Notes, NoteFlags, Subscribed, Cancelled, RmOutcome;
      ghost var s := subscriptions.Subs();
      var data, subscribe, request := Classify(m);
      if request {
        RequestIs(s, p, m, data, subscribe);
        var notify := Apply(p, data, subscribe);
        Tell(notify, subscribe, data);
      } else {
        UserIs(s, p, m);
        Queue(m.data, m.more);
      }
    }

    method Tell(notify: bool, subscribe: bool, topic: Key)
      requires Queued()
      modifies this`pendingData, this`pendingFlags, this`notes
      ensures Queued() && notes == old(notes) + if notify then [[if subscribe then 1 else 0] + topic] else []
      ensures pendingFlags == old(pendingFlags) + if notify then [false] else []
    {
      if notify {
        Queue([if subscribe then 1 else 0] + topic, false);
      }
    }

    method Classify(m: Msg) returns (topic: Key, subscribe: bool, request: bool)
      ensures request ==> XPubReads(m) == if subscribe then Add(topic) else Drop(topic)
      ensures !request ==> XPubReads(m) == User
    {
      if m.kind == Subscribe || m.kind == Cancel {
        return ZmtpDecoder.CommandBody(m), m.kind == Subscribe, true;
      }
      if |m.data| > 0 && (m.data[0] == 0 || m.data[0] == 1) {
        return m.data[1..], m.data[0] == 1, true;
      }
      return [], false, false;
    }

    /** Applies a request to the index; true if the application is to be told. */
    method Apply(p: Pipe, topic: Key, subscribe: bool) returns (notify: bool)
      requires subscriptions.Valid()
      modifies subscriptions, subscriptions.tree
      ensures subscriptions.Valid()
      ensures subscribe ==> subscriptions.Subs() == Subscribed(old(subscriptions.Subs()), topic, p)
      ensures !subscribe ==> subscriptions.Subs() == Cancelled(old(subscriptions.Subs()), topic, p)
      ensures subscribe ==> (notify <==> topic !in old(subscriptions.Subs()))
      ensures !subscribe ==> (notify <==> RmOutcome(old(subscriptions.Subs()), topic, p) != ValuesRemain)
    {
      hide MTrie.Valid, MTrie.Subs, Subscribed, Cancelled, RmOutcome;
      if !subscribe {
        var r := subscriptions.Rm(topic, p);
        notify := r != ValuesRemain;
      } else {
        notify := subscriptions.Add(topic, p);
      }
    }

    /** Reads all messages that a pipe holds. */
    method ReadActivated(p: Pipe, msgs: seq<Msg>)
      requires Valid() && p in dist.pipes.items
      modifies this`pendingData, this`pendingFlags, this`notes, subscriptions, subscriptions.tree
      ensures Valid() && subscriptions.Subs() == HeardAll(old(subscriptions.Subs()), p, msgs)
      ensures notes == old(notes) + NotesAll(old(subscriptions.Subs()), p, msgs)
      ensures pendingFlags == old(pendingFlags) + FlagsAll(old(subscriptions.Subs()), p, msgs)
    {
      hide MTrie.Valid, MTrie.Subs, Dist.Valid, PipeArray.Valid, HeardAll, NotesAll, FlagsAll, Known, Elements;
      InElements(dist.pipes.items, p);
      HeardAllKnown(subscriptions.Subs(), p, msgs, dist.All());
      ProcessAll(p, msgs);
    }

    method ProcessAll(p: Pipe, msgs: seq<Msg>)
      requires subscriptions.Valid() && Queued()
      modifies this`pendingData, this`pendingFlags, this`notes, subscriptions, subscriptions.tree
      ensures subscriptions.Valid() && Queued()
      ensures subscriptions.Subs() == HeardAll(old(subscriptions.Subs()), p, msgs)
      ensures notes == old(notes) + NotesAll(old(subscriptions.Subs()), p, msgs)
      ensures pendingFlags == old(pendingFlags) + FlagsAll(old(subscriptions.Subs()), p, msgs)
    {
      hide MTrie.Valid, MTrie.Subs, Heard, Notes, NoteFlags;
      var i := 0;
      while i < |msgs|
        invariant 0 <= i <= |msgs| && subscriptions.Valid() && Queued()
        invariant subscriptions.Subs() == HeardAll(old(subscriptions.Subs()), p, msgs[..i])
        invariant notes == old(notes) + NotesAll(old(subscriptions.Subs()), p, msgs[..i])
        invariant pendingFlags == old(pendingFlags) + FlagsAll(old(subscriptions.Subs()), p, msgs[..i])
      {
        assert msgs[..i + 1][..i] == msgs[..i];
        Process(p, msgs[i]);
        i := i + 1;
      }
      assert msgs[..i] == msgs;
    }

    method AttachPipe(p: Pipe, msgs: seq<Msg>)
      requires Valid() && p !in dist.pipes.items
      modifies this`pendingData, this`pendingFlags, this`notes, subscriptions, subscriptions.tree, dist, dist.pipes
      ensures Valid() && dist.All() == old(dist.All()) + {p}
      ensures subscriptions.Subs() == HeardAll(old(subscriptions.Subs()), p, msgs)
      ensures notes == old(notes) + NotesAll(old(subscriptions.Subs()), p, msgs)
      ensures pendingFlags == old(pendingFlags) + FlagsAll(old(subscriptions.Subs()), p, msgs)
    {
      dist.Attach(p);
      assert p in dist.All();
      hide MTrie.Valid, MTrie.Subs, Dist.Valid, PipeArray.Valid, Elements;
      ReadActivated(p, msgs);
    }

    /** The pipe leaves the index, and topics that nobody else holds are taken back. */
    method PipeTerminated(p: Pipe) returns (topics: seq<Key>)
      requires Valid() && p in dist.pipes.items
      modifies this`pendingData, this`pendingFlags, this`notes, subscriptions.tree, dist, dist.pipes
      ensures Valid() && dist.All() == old(dist.All()) - {p}
      ensures subscriptions.Subs() == Dropped(old(subscriptions.Subs()), p)
      ensures Lists(topics, Due(old(subscriptions.Subs()), p, true))
      ensures notes == old(notes) + Farewell(topics)
      ensures pendingFlags == old(pendingFlags) + Last(|topics|)
    {
      DroppedKnown(subscriptions.Subs(), p, dist.All());
      topics := Forget(p);
      LeaveDist(p);
    }

    method LeaveDist(p: Pipe)
      requires dist.Valid() && p in dist.pipes.items
      modifies dist, dist.pipes
      ensures dist.Valid() && dist.All() == old(dist.All()) - {p}
      ensures dist.more == old(dist.more) && dist.toAll == old(dist.toAll)
    {
      dist.PipeTerminated(p);
    }

    method Forget(p: Pipe) returns (topics: seq<Key>)
      requires subscriptions.Valid() && Queued()
      modifies this`pendingData, this`pendingFlags, this`notes, subscriptions.tree
      ensures subscriptions.Valid() && Queued()
      ensures subscriptions.Subs() == Dropped(old(subscriptions.Subs()), p)
      ensures Lists(topics, Due(old(subscriptions.Subs()), p, true))
      ensures notes == old(notes) + Farewell(topics)
      ensures pendingFlags == old(pendingFlags) + Last(|topics|)
    {
      hide MTrie.Valid, MTrie.Subs, Dropped, Due, Lists, Farewell;
      topics := RmPipe(subscriptions, p, true);
      SendUnsubscriptions(topics);
    }

    method SendUnsubscriptions(topics: seq<Key>)
      requires Queued()
      modifies this`pendingData, this`pendingFlags, this`notes
      ensures Queued() && notes == old(notes) + Farewell(topics)
      ensures pendingFlags == old(pendingFlags) + Last(|topics|)
    {
      var i := 0;
      while i < |topics|
        invariant 0 <= i <= |topics| && Queued() && notes == old(notes) + Farewell(topics[..i])
        invariant pendingFlags == old(pendingFlags) + Last(i)
      {
        Queue([0] + topics[i], false);
        i := i + 1;
        assert Farewell(topics[..i]) == Farewell(topics[..i - 1]) + [[0] + topics[i - 1]];
        assert Last(i) == Last(i - 1) + [false];
      }
      assert topics[..i] == topics;
    }

    /** What the application receives is what was queued, in order. */
    method Recv() returns (data: Option<Key>, more: bool)
      requires Valid()
      modifies this`pendingData, this`pendingFlags, this`taken
      ensures Valid()
      ensures data == if old(pendingData) == [] then None else Some(old(pendingData)[0])
      ensures more <==> old(pendingData) != [] && old(pendingFlags)[0]
      ensures taken == old(taken) + if data.Some? then [data.value] else []
      ensures data.Some? ==>
                old(pendingData) == [data.value] + pendingData && old(pendingFlags) == [more] + pendingFlags
    {
      hide MTrie.Valid, MTrie.Subs, Dist.Valid, PipeArray.Valid, Elements, Known;
      if |pendingData| == 0 {
        return None, false;
      }
      data, more := Some(pendingData[0]), pendingFlags[0];
      taken := taken + [pendingData[0]];
      pendingData, pendingFlags := pendingData[1..], pendingFlags[1..];
    }

    /** Marks every pipe with a subscription to the data that can be sent to. */
    method MarkMatching(data: Key)
      requires subscriptions.Valid() && dist.Valid() && !dist.more && Known(subscriptions.Subs(), dist.All())
      modifies dist`matching, dist.pipes
      ensures dist.Valid() && dist.All() == old(dist.All()) && dist.Active() == old(dist.Active())
      ensures dist.Eligible() == old(dist.Eligible())
      ensures dist.Matching() == Interested(subscriptions.Subs(), data) * old(dist.Eligible())
    {
      InterestedKnown(subscriptions.Subs(), data, dist.All());
      hide MTrie.Valid, MTrie.Subs, PipeArray.Valid, Elements, Interested;
      var calls := subscriptions.Match(data);
      dist.Unmatch();
      MarkCalls(calls);
    }

    method MarkCalls(calls: seq<set<Pipe>>)
      requires dist.Valid() && !dist.more && dist.Matching() == {} && Union(calls) <= dist.All()
      modifies dist`matching, dist.pipes
      ensures dist.Valid() && dist.All() == old(dist.All()) && dist.Active() == old(dist.Active())
      ensures dist.Eligible() == old(dist.Eligible())
      ensures dist.Matching() == Union(calls) * old(dist.Eligible())
    {
      hide PipeArray.Valid, Elements;
      var i := 0;
      while i < |calls|
        invariant 0 <= i <= |calls| && dist.Valid() && !dist.more && dist.All() == old(dist.All())
        invariant dist.Active() == old(dist.Active()) && dist.Eligible() == old(dist.Eligible())
        invariant dist.Matching() == Union(calls[..i]) * old(dist.Eligible())
        modifies dist`matching, dist.pipes
      {
        UnionStep(calls, i);
        MarkAll(calls[i]);
        i := i + 1;
      }
      assert calls[..i] == calls;
    }

    method MarkAll(pipes: set<Pipe>)
      requires dist.Valid() && !dist.more && pipes <= dist.All()
      modifies dist`matching, dist.pipes
      ensures dist.Valid() && dist.All() == old(dist.All()) && dist.Active() == old(dist.Active())
      ensures dist.Eligible() == old(dist.Eligible())
      ensures dist.Matching() == old(dist.Matching()) + pipes * old(dist.Eligible())
    {
      hide PipeArray.Valid, Elements;
      var todo := pipes;
      while todo != {}
        invariant dist.Valid() && !dist.more && todo <= pipes && dist.All() == old(dist.All())
        invariant dist.Active() == old(dist.Active()) && dist.Eligible() == old(dist.Eligible())
        invariant dist.Matching() == old(dist.Matching()) + (pipes - todo) * old(dist.Eligible())
        modifies dist`matching, dist.pipes
        decreases |todo|
      {
        var p :| p in todo;
        InElements(dist.pipes.items, p);
        dist.Match(p);
        todo := todo - {p};
      }
    }

    /**
     Sends a part of a message. The first part goes to exactly the pipes that can be sent to and
     subscribe to a prefix of it, the others go to all attached ones that have had every part before.
     */
    method Send(msg: Message, data: Key, full: set<Pipe>) returns (attempts: seq<Pipe>, flushed: set<Pipe>)
      requires Valid() && msg.Valid()
      modifies this`moreSend, dist, dist.pipes, msg, msg.content
      ensures Valid() && moreSend == old(msg.more) && dist.All() == old(dist.All())
      ensures Distinct(attempts)
      ensures !old(moreSend) ==> Elements(attempts) == Interested(subscriptions.Subs(), data) * old(dist.Eligible())
      ensures old(moreSend) ==> Elements(attempts) == old(dist.whole)
      ensures moreSend ==> dist.whole == Elements(attempts) - full
      ensures flushed == if moreSend then {} else Elements(attempts) - full
    {
      hide MTrie.Valid, MTrie.Subs, PipeArray.Valid, Elements, Known, Interested;
      var msgMore := msg.more;
      if !moreSend {
        MarkMatching(data);
      }
      attempts, flushed := dist.SendToMatching(msg, full);
      if !msgMore {
        dist.Unmatch();
      }
      moreSend := msgMore;
    }
  }
}
