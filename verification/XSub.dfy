/** `xsub_t`, in the part that keeps subscriptions and sends them to every attached publisher. */
module XSubs {
  import opened Bytes
  import opened Tries
  import opened MTries
  import opened Zmtp
  import opened PubSub

  /** Every pipe gets the message. */
  function Appended(out: map<Pipe, seq<Msg>>, m: Msg): map<Pipe, seq<Msg>> {
    map p | p in out :: out[p] + [m]
  }

  class XSub {
    const subscriptions: Trie
    var out: map<Pipe, seq<Msg>>    // what was written to each attached pipe

    ghost predicate Valid()
      reads this, subscriptions, subscriptions.tree
    {
      subscriptions.Valid()
    }

    constructor ()
      ensures Valid() && fresh(subscriptions) && fresh(subscriptions.tree)
      ensures subscriptions.Bag() == map[] && out == map[]
    {
      subscriptions := new Trie();
      out := map[];
    }

    /** A new pipe gets all cached subscriptions, each topic once. */
    method AttachPipe(p: Pipe) returns (topics: seq<Key>)
      requires Valid() && p !in out
      modifies this
      ensures Valid() && out == old(out)[p := Cached(topics)]
      ensures |out[p]| == |topics| && forall i | 0 <= i < |topics| :: out[p][i] == InitSubscribe(topics[i])
      ensures Lists(topics, subscriptions.Bag().Keys)
    {
      hide Trie.Valid, Trie.Bag, Lists;
      topics := subscriptions.Apply();
      var written: seq<Msg> := [];
      var i := 0;
      while i < |topics|
        invariant 0 <= i <= |topics| && written == Cached(topics[..i])
      {
        written := written + [InitSubscribe(topics[i])];
        i := i + 1;
        assert topics[..i] == topics[..i - 1] + [topics[i - 1]];
        assert written == Cached(topics[..i]);
      }
      assert topics[..i] == topics;
      out := out[p := written];
    }

    method PipeTerminated(p: Pipe)
      requires Valid() && p in out
      modifies this
      ensures Valid() && out == old(out) - {p}
    {
      out := out - {p};
    }

    method SendToAll(m: Msg)
      modifies this
      ensures out == Appended(old(out), m)
    {
      out := map p | p in out :: out[p] + [m];
    }

    /** Sends a message upstream; requests also change the subscriptions. */
    method Send(m: Msg)
      requires Valid() && !m.command
      modifies this, subscriptions.tree
      ensures Valid() && subscriptions.Bag() == XSubBag(old(subscriptions.Bag()), m)
      ensures out == if Forwards(old(subscriptions.Bag()), m) then Appended(old(out), m) else old(out)
      ensures out.Keys == old(out.Keys)
      ensures !XSubReads(m).Drop? ==> forall p | p in out :: out[p] == old(out)[p] + [m]
      ensures XSubReads(m).Drop? ==>
                var left := Copies(old(subscriptions.Bag()), XSubReads(m).topic);
                forall p | p in out :: out[p] == old(out)[p] + if left == 1 then [m] else []
    {
      hide Trie.Valid, Trie.Bag, XSubBag, Copies;
      var forward := Update(m);
      if forward {
        SendToAll(m);
      }
    }

    method Update(m: Msg) returns (forward: bool)
      requires Valid() && !m.command
      modifies subscriptions.tree
      ensures Valid() && subscriptions.Bag() == XSubBag(old(subscriptions.Bag()), m)
      ensures forward <==> Forwards(old(subscriptions.Bag()), m)
    {
      hide Trie.Valid, Trie.Bag, Inserted, Removed, Copies;
      var data := m.data;
      if m.kind == Subscribe || (|data| > 0 && data[0] == 1) {
        if m.kind != Subscribe {
          data := data[1..];
        }
        var first := subscriptions.Add(data);
        forward := true;
      } else if m.kind == Cancel || (|data| > 0 && data[0] == 0) {
        if m.kind != Cancel {
          data := data[1..];
        }
        forward := subscriptions.Rm(data);
      } else {
        forward := true;
      }
    }

    /** Whether a message from a publisher passes the filter, without pattern subscriptions. */
    method Match(data: Key) returns (r: bool)
      requires Valid()
      ensures r <==> Accepts(subscriptions.Bag(), data)
    {
      r := subscriptions.Check(data);
    }
  }
}
