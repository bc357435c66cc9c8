/**
 Any number of XSUB and XPUB sockets joined by pipes, over whole runs: what each publisher holds
 for a pipe follows what its subscriber counts, and what its application is told stays true.
 */
module PubSubNet {
  import opened Bytes
  import opened Tries
  import opened MTries
  import opened MTrieRemoval
  import opened Zmtp
  import opened PubSub

  /** A pipe from a subscriber to a publisher with the messages on their way. */
  datatype Link = Link(sub: nat, pub: nat, wire: seq<Msg>, attached: bool)

  /** A publisher with all it ever queued for its application. */
  datatype Pub = Pub(subs: Subs, notes: seq<Key>)

  datatype Net = Net(bags: map<nat, Bag>, pubs: map<nat, Pub>, links: map<Pipe, Link>)

  datatype Event =
    | Request(sub: nat, msg: Msg)                                   // the application of an XSUB sends
    | Connect(pipe: Pipe, sub: nat, pub: nat, topics: seq<Key>)     // cached topics are sent in this order
    | Read(pipe: Pipe)                                              // the XPUB reads one message
    | Detach(pipe: Pipe)                                            // the pipe ends for the XSUB
    | Terminated(pipe: Pipe, topics: seq<Key>)                      // and for the XPUB, with these callbacks

  ghost predicate Possible(net: Net, e: Event) {
    match e
    case Request(i, m) => i in net.bags && !m.command && !m.more && !Misread(m)
    case Connect(p, i, j, topics) =>
      p !in net.links && i in net.bags && j in net.pubs && Lists(topics, net.bags[i].Keys)
    case Read(p) => p in net.links && net.links[p].pub in net.pubs && net.links[p].wire != []
    case Detach(p) => p in net.links
    case Terminated(p, topics) =>
      && p in net.links && net.links[p].pub in net.pubs
      && Lists(topics, Due(net.pubs[net.links[p].pub].subs, p, true))
  }

  /** A message sent by socket `i` goes to every pipe attached to it. */
  function Sent(links: map<Pipe, Link>, i: nat, m: Msg): map<Pipe, Link> {
    map p | p in links ::
      if links[p].sub == i && links[p].attached then links[p].(wire := links[p].wire + [m]) else links[p]
  }

  ghost function Step(net: Net, e: Event): Net
    requires Possible(net, e)
  {
    match e
    case Request(i, m) =>
      var b := net.bags[i];
      net.(bags := net.bags[i := XSubBag(b, m)],
           links := if Forwards(b, m) then Sent(net.links, i, m) else net.links)
    case Connect(p, i, j, topics) => net.(links := net.links[p := Link(i, j, Cached(topics), true)])
    case Read(p) =>
      var l := net.links[p];
      var pub, m := net.pubs[l.pub], l.wire[0];
      net.(pubs := net.pubs[l.pub := Pub(Heard(pub.subs, p, m), pub.notes + Notes(pub.subs, p, m))],
           links := net.links[p := l.(wire := l.wire[1..])])
    case Detach(p) => net.(links := net.links[p := net.links[p].(attached := false)])
    case Terminated(p, topics) =>
      var j := net.links[p].pub;
      var pub := net.pubs[j];
      net.(pubs := net.pubs[j := Pub(Dropped(pub.subs, p), pub.notes + Farewell(topics))],
           links := net.links - {p})
  }

  ghost predicate LinkGood(net: Net, p: Pipe)
    requires p in net.links
  {
    var l := net.links[p];
    && l.sub in net.bags && l.pub in net.pubs
    && Orderly(Held(net.pubs[l.pub].subs, p), l.wire)
    && (l.attached ==> Agree(net.bags[l.sub], net.pubs[l.pub].subs, p, l.wire))
  }

  ghost predicate Joined(net: Net, p: Pipe, j: nat) {
    p in net.links && net.links[p].pub == j
  }

  ghost predicate PubGood(net: Net, j: nat)
    requires j in net.pubs
  {
    var pub := net.pubs[j];
    && Proper(pub.subs)
    && Truthful(pub.subs, pub.notes)
    && forall p: Pipe :: !Joined(net, p, j) ==> Held(pub.subs, p) == {}
  }

  ghost predicate Good(net: Net) {
    && (forall p | p in net.links :: LinkGood(net, p))
    && (forall j | j in net.pubs :: PubGood(net, j))
  }

  lemma RequestGood(net: Net, e: Event)
    requires Good(net) && Possible(net, e) && e.Request?
    ensures Good(Step(net, e))
  {
    hide Orderly, Held, Agree, Truthful, XSubBag, Forwards, Misread, Proper;
    var net', i, m := Step(net, e), e.sub, e.msg;
    forall p | p in net'.links ensures LinkGood(net', p) {
      assert LinkGood(net, p);
      var l := net.links[p];
      if l.sub == i && l.attached {
        SendAgrees(net.bags[i], net.pubs[l.pub].subs, p, l.wire, m);
        AgreeOrderly(net'.bags[i], net.pubs[l.pub].subs, p, net'.links[p].wire);
      }
    }
    forall j | j in net'.pubs ensures PubGood(net', j) {
      assert PubGood(net, j);
      forall p: Pipe | !Joined(net', p, j) ensures Held(net'.pubs[j].subs, p) == {} {
        assert !Joined(net, p, j);
      }
    }
  }

  lemma AgreeOrderly(b: Bag, s: Subs, p: Pipe, wire: seq<Msg>)
    requires Agree(b, s, p, wire)
    ensures Orderly(Held(s, p), wire)
  {
  }

  lemma ConnectGood(net: Net, e: Event)
    requires Good(net) && Possible(net, e) && e.Connect?
    ensures Good(Step(net, e))
  {
    hide Orderly, Held, Agree, Truthful, Proper, Lists;
    var net' := Step(net, e);
    assert PubGood(net, e.pub) && !Joined(net, e.pipe, e.pub);
    AttachAgrees(net.bags[e.sub], net.pubs[e.pub].subs, e.pipe, e.topics);
    AgreeOrderly(net.bags[e.sub], net.pubs[e.pub].subs, e.pipe, Cached(e.topics));
    forall p | p in net'.links ensures LinkGood(net', p) {
      assert p != e.pipe ==> LinkGood(net, p);
    }
    forall j | j in net'.pubs ensures PubGood(net', j) {
      assert PubGood(net, j);
      forall p: Pipe | !Joined(net', p, j) ensures Held(net'.pubs[j].subs, p) == {} {
        assert !Joined(net, p, j);
      }
    }
  }

  lemma ReadGood(net: Net, e: Event)
    requires Good(net) && Possible(net, e) && e.Read?
    ensures Good(Step(net, e))
  {
    hide Agree, Truthful, Proper, Heard, Notes, Effect, XPubReads;
    var net', q := Step(net, e), e.pipe;
    var l := net.links[q];
    var s, m := net.pubs[l.pub].subs, l.wire[0];
    assert LinkGood(net, q) && PubGood(net, l.pub);
    ReadTruthful(s, q, l.wire, net.pubs[l.pub].notes);
    ReplayCons(Held(s, q), l.wire);
    HeardHeld(s, q, m, q);
    forall p | p in net'.links ensures LinkGood(net', p) {
      assert LinkGood(net, p);
      HeardHeld(s, q, m, p);
      if p != q && net.links[p].pub == l.pub {
        SameAgree(net.bags[net.links[p].sub], s, Heard(s, q, m), p, net.links[p].wire);
      } else if p == q && l.attached {
        DeliverAgrees(net.bags[l.sub], s, q, l.wire);
      }
    }
    forall j | j in net'.pubs ensures PubGood(net', j) {
      assert PubGood(net, j);
      forall p: Pipe | !Joined(net', p, j) ensures Held(net'.pubs[j].subs, p) == {} {
        assert !Joined(net, p, j);
        HeardHeld(s, q, m, p);
      }
    }
  }

  /** What a pipe holds is all that its agreement depends on. */
  lemma SameAgree(b: Bag, s: Subs, s': Subs, p: Pipe, wire: seq<Msg>)
    requires Held(s, p) == Held(s', p)
    ensures Agree(b, s, p, wire) <==> Agree(b, s', p, wire)
  {
  }

  /** The head of an orderly wire cancels only what its pipe holds. */
  lemma ReadTruthful(s: Subs, p: Pipe, wire: seq<Msg>, notes: seq<Key>)
    requires Proper(s) && Truthful(s, notes) && wire != [] && Orderly(Held(s, p), wire)
    ensures Truthful(Heard(s, p, wire[0]), notes + Notes(s, p, wire[0])) && Proper(Heard(s, p, wire[0]))
  {
    HeardHeld(s, p, wire[0], p);
    NotifyExact(s, p, wire[0], notes);
    if XPubReads(wire[0]).Drop? {
      OrderlyHead(Held(s, p), wire);
    }
  }

  lemma DetachGood(net: Net, e: Event)
    requires Good(net) && Possible(net, e) && e.Detach?
    ensures Good(Step(net, e))
  {
  }

  lemma TerminatedGood(net: Net, e: Event)
    requires Good(net) && Possible(net, e) && e.Terminated?
    ensures Good(Step(net, e))
  {
    hide Orderly, Held, Agree, Truthful, Proper, Dropped, Due, Farewell;
    var net', q := Step(net, e), e.pipe;
    var k := net.links[q].pub;
    var s := net.pubs[k].subs;
    assert PubGood(net, k);
    FarewellTruthful(s, q, net.pubs[k].notes, e.topics);
    DroppedHeld(s, q, q);
    forall p | p in net'.links ensures LinkGood(net', p) {
      assert LinkGood(net, p);
      DroppedHeld(s, q, p);
      if net.links[p].pub == k {
        SameAgree(net.bags[net.links[p].sub], s, Dropped(s, q), p, net.links[p].wire);
      }
    }
    forall j | j in net'.pubs ensures PubGood(net', j) {
      assert PubGood(net, j);
      forall p: Pipe | !Joined(net', p, j) ensures Held(net'.pubs[j].subs, p) == {} {
        assert p != q ==> !Joined(net, p, j);
        if j == k || p == q {
          DroppedHeld(s, q, p);
        }
        assert j != k ==> !Joined(net, q, j);
      }
    }
  }

  lemma StepGood(net: Net, e: Event)
    requires Good(net) && Possible(net, e)
    ensures Good(Step(net, e))
  {
    match e
    case Request(_, _) => RequestGood(net, e);
    case Connect(_, _, _, _) => ConnectGood(net, e);
    case Read(_) => ReadGood(net, e);
    case Detach(_) => DetachGood(net, e);
    case Terminated(_, _) => TerminatedGood(net, e);
  }

  // ------------------------------------------------------------------ runs

  /** No subscriptions, no pipes. */
  ghost predicate Initial(net: Net) {
    && (forall i | i in net.bags :: net.bags[i] == map[])
    && (forall j | j in net.pubs :: net.pubs[j] == Pub(map[], []))
    && net.links == map[]
  }

  ghost predicate Reaches(net: Net, events: seq<Event>, net': Net)
    decreases |events|
  {
    if events == [] then net == net' else
      Possible(net, events[0]) && Reaches(Step(net, events[0]), events[1..], net')
  }

  lemma {:induction false} RunGood(net: Net, events: seq<Event>, net': Net)
    requires Good(net) && Reaches(net, events, net')
    ensures Good(net')
    decreases |events|
  {
    if events != [] {
      StepGood(net, events[0]);
      RunGood(Step(net, events[0]), events[1..], net');
    }
  }

  lemma InitialGood(net: Net)
    requires Initial(net)
    ensures Good(net)
  {
  }

  /**
   Whatever the sockets did before: once the requests on a pipe have been read, its publisher sends
   it a message iff its subscriber accepts it.
   */
  lemma SubscriptionsAgree(net: Net, events: seq<Event>, net': Net, p: Pipe, data: Key)
    requires Initial(net) && Reaches(net, events, net')
    requires p in net'.links && net'.links[p].attached && net'.links[p].wire == []
    ensures var l := net'.links[p];
      && l.sub in net'.bags && l.pub in net'.pubs
      && Held(net'.pubs[l.pub].subs, p) == net'.bags[l.sub].Keys
      && (p in Interested(net'.pubs[l.pub].subs, data) <==> Accepts(net'.bags[l.sub], data))
  {
    InitialGood(net);
    RunGood(net, events, net');
    assert LinkGood(net', p);
    var l := net'.links[p];
    DrainedAgrees(net'.bags[l.sub], net'.pubs[l.pub].subs, p, data);
  }

  /**
   Whatever the sockets did before: the topics a publisher's application was told of and not told
   the end of are exactly those that some pipe holds, and the two kinds of news take turns.
   */
  lemma NotificationsTrue(net: Net, events: seq<Event>, net': Net, j: nat, t: Key)
    requires Initial(net) && Reaches(net, events, net') && j in net'.pubs
    ensures var pub := net'.pubs[j];
      && Alternating(pub.notes)
      && (t in Believed(pub.notes) <==> exists p :: p in Holders(pub.subs, t))
  {
    InitialGood(net);
    RunGood(net, events, net');
    assert PubGood(net', j);
    var s := net'.pubs[j].subs;
    if t in s {
      assert s[t] != {};
      var p :| p in s[t];
      assert p in Holders(s, t);
    }
  }
}
