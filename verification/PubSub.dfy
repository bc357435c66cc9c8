/**
 Subscriptions between XSUB and XPUB. A request travels from the subscriber, which counts its
 subscriptions, to the publisher, which knows the pipes behind every topic.
 */
module PubSub {
  import opened Bytes
  import opened Tries
  import opened MTries
  import opened MTrieRemoval
  import opened Zmtp
  import opened ZmtpDecoder

  /** What a message sent upstream asks for. */
  datatype Op = Add(topic: Key) | Drop(topic: Key) | User

  /** The message of a peer that knows no commands: a byte 1 or 0 before the topic. */
  function PlainOp(data: Key): Op {
    if data != [] && data[0] == 1 then Add(data[1..])
    else if data != [] && data[0] == 0 then Drop(data[1..])
    else User
  }

  /** How the subscriber reads a message that it sends. */
  function XSubReads(m: Msg): Op {
    if m.kind == Subscribe then Add(m.data)
    else if m.data != [] && m.data[0] == 1 then Add(m.data[1..])
    else if m.kind == Cancel then Drop(m.data)
    else if m.data != [] && m.data[0] == 0 then Drop(m.data[1..])
    else User
  }

  /** How the publisher reads a message that it receives. */
  function XPubReads(m: Msg): Op {
    if m.kind == Subscribe then Add(CommandBody(m))
    else if m.kind == Cancel then Drop(CommandBody(m))
    else PlainOp(m.data)
  }

  /** A cancellation of a topic that starts with the byte 1. */
  predicate Misread(m: Msg) {
    m.kind == Cancel && m.data != [] && m.data[0] == 1
  }

  /** Both ends read a message alike unless it cancels a topic that starts with the byte 1. */
  lemma ReadAlike(m: Msg)
    requires !m.command
    ensures XSubReads(m) == XPubReads(m) <==> !Misread(m)
  {
  }

  /** What every message means: commands by their kind, others by their first byte. */
  lemma RequestMeanings(m: Msg, topic: Key)
    requires !m.command
    ensures m.kind == Subscribe ==> XSubReads(m) == XPubReads(m) == Add(m.data)
    ensures m.kind == Cancel ==> XPubReads(m) == Drop(m.data)
    ensures m.kind == Cancel ==>
              XSubReads(m) == if m.data != [] && m.data[0] == 1 then Add(m.data[1..]) else Drop(m.data)
    ensures m.kind !in {Subscribe, Cancel} && m.data == [1] + topic ==> XSubReads(m) == XPubReads(m) == Add(topic)
    ensures m.kind !in {Subscribe, Cancel} && m.data == [0] + topic ==> XSubReads(m) == XPubReads(m) == Drop(topic)
    ensures m.kind !in {Subscribe, Cancel} && (m.data == [] || m.data[0] > 1) ==>
              XSubReads(m) == XPubReads(m) == User
  {
    assert ([1] + topic)[1..] == topic && ([0] + topic)[1..] == topic;
  }

  /** The message as the publisher gets it over a ZMTP connection. */
  function Received(f: ZmtpDecoder.Frame): Msg {
    var c := ProcessCommand(f.body);
    Msg(f.more, f.command, if f.command && c.Flagged? then c.kind else Plain, f.body)
  }

  /** Framing does not change what the publisher reads. */
  lemma WireKeepsMeaning(d: Dec, max: int, m: Msg)
    requires Between(d) && Fits(m, max) && !m.command && m.kind in {Plain, Subscribe, Cancel} && !m.more
    ensures var r := FeedAll(d, max, OnWire(m));
      r.ok && |r.frames| == 1 && XPubReads(Received(r.frames[0])) == XPubReads(m)
  {
    MsgRoundTrip(d, max, m);
    if m.kind != Plain {
      assert m == InitSubscribe(m.data) || m == InitCancel(m.data);
      TopicRoundTrip(d, max, m);
    }
  }

  // ------------------------------------------------------------------ the two indexes

  /** The subscriptions that the subscriber counts, after sending a message. */
  function XSubBag(b: Bag, m: Msg): Bag {
    match XSubReads(m)
    case Add(t) => Inserted(b, t)
    case Drop(t) => Removed(b, t)
    case User => b
  }

  /** A cancellation goes upstream only if no subscription to the topic is left. */
  predicate Forwards(b: Bag, m: Msg) {
    XSubReads(m).Drop? ==> Copies(b, XSubReads(m).topic) == 1
  }

  /** The publisher's index after reading a message from a pipe. */
  function Heard(s: Subs, p: Pipe, m: Msg): Subs {
    match XPubReads(m)
    case Add(t) => Subscribed(s, t, p)
    case Drop(t) => Cancelled(s, t, p)
    case User => s
  }

  ghost function Held(s: Subs, p: Pipe): set<Key> {
    set k | k in s && p in s[k]
  }

  function Effect(held: set<Key>, op: Op): set<Key> {
    match op
    case Add(t) => held + {t}
    case Drop(t) => held - {t}
    case User => held
  }

  /** What a pipe will hold once the messages on their way have been read. */
  function Replay(held: set<Key>, wire: seq<Msg>): set<Key> {
    if wire == [] then held else
      Effect(Replay(held, wire[..|wire| - 1]), XPubReads(wire[|wire| - 1]))
  }

  /** Only topics that are held at that time are cancelled. */
  predicate Orderly(held: set<Key>, wire: seq<Msg>) {
    wire != [] ==>
      var before, op := wire[..|wire| - 1], XPubReads(wire[|wire| - 1]);
      && Orderly(held, before)
      && (op.Drop? ==> op.topic in Replay(held, before))
  }

  ghost predicate Agree(b: Bag, s: Subs, p: Pipe, wire: seq<Msg>) {
    Replay(Held(s, p), wire) == b.Keys && Orderly(Held(s, p), wire)
  }

  lemma HeardHeld(s: Subs, p: Pipe, m: Msg, q: Pipe)
    requires Proper(s)
    ensures Proper(Heard(s, p, m))
    ensures Held(Heard(s, p, m), q) == if p == q then Effect(Held(s, p), XPubReads(m)) else Held(s, q)
  {
    var op := XPubReads(m);
    if op.Drop? {
      LastOne(Holders(s, op.topic), p);
    }
  }

  lemma DroppedHeld(s: Subs, p: Pipe, q: Pipe)
    requires Proper(s)
    ensures Proper(Dropped(s, p))
    ensures Held(Dropped(s, p), q) == if p == q then {} else Held(s, q)
  {
  }

  lemma {:induction false} ReplayCons(held: set<Key>, wire: seq<Msg>)
    requires wire != []
    ensures Replay(held, wire) == Replay(Effect(held, XPubReads(wire[0])), wire[1..])
    ensures Orderly(held, wire) ==> Orderly(Effect(held, XPubReads(wire[0])), wire[1..])
    decreases |wire|
  {
    var n := |wire| - 1;
    if n > 0 {
      ReplayCons(held, wire[..n]);
      assert wire[..n][1..] == wire[1..][..n - 1] && wire[1..][n - 1] == wire[n] && wire[..n][0] == wire[0];
    } else {
      assert wire[..n] == [] && wire[1..] == [];
    }
  }

  lemma {:induction false} OrderlyHead(held: set<Key>, wire: seq<Msg>)
    requires wire != [] && Orderly(held, wire) && XPubReads(wire[0]).Drop?
    ensures XPubReads(wire[0]).topic in held
    decreases |wire|
  {
    var n := |wire| - 1;
    if n > 0 {
      assert wire[..n][0] == wire[0];
      OrderlyHead(held, wire[..n]);
    } else {
      assert wire[..n] == [];
    }
  }

  /** Sending a message keeps the ends in agreement. */
  lemma SendAgrees(b: Bag, s: Subs, p: Pipe, wire: seq<Msg>, m: Msg)
    requires Agree(b, s, p, wire) && !m.command && !Misread(m)
    ensures Agree(XSubBag(b, m), s, p, if Forwards(b, m) then wire + [m] else wire)
  {
  }

  /** For the misread family: agreement survives only where the mistake has no effect. */
  lemma MisreadExact(b: Bag, s: Subs, p: Pipe, wire: seq<Msg>, m: Msg)
    requires Agree(b, s, p, wire) && !m.command && Misread(m)
    ensures Forwards(b, m)
    ensures Replay(Held(s, p), wire + [m]) == XSubBag(b, m).Keys <==> m.data !in b && m.data[1..] in b
  {
  }

  /** A subscriber of `[1]` that cancels stays subscribed upstream to nothing, but filters for everything. */
  lemma MisreadCase(s: Subs, p: Pipe)
    requires Proper(s) && Held(s, p) == {[1]}
    ensures var b: Bag := map[[1] := 1]; var m := InitCancel([1]);
      && Agree(b, s, p, []) && Forwards(b, m)
      && Held(Heard(s, p, m), p) == {}
      && XSubBag(b, m).Keys == {[1], []}
  {
    var b: Bag, t: Key := map[[1] := 1], [1];
    var m := InitCancel(t);
    assert b.Keys == {t};
    assert XSubReads(m) == Add([]) && XPubReads(m) == Drop(t);
    HeardHeld(s, p, m, p);
  }

  lemma DeliverAgrees(b: Bag, s: Subs, p: Pipe, wire: seq<Msg>)
    requires Proper(s) && Agree(b, s, p, wire) && wire != []
    ensures Agree(b, Heard(s, p, wire[0]), p, wire[1..])
  {
    HeardHeld(s, p, wire[0], p);
    ReplayCons(Held(s, p), wire);
  }

  function Topics(topics: seq<Key>): set<Key> {
    set k | k in topics
  }

  lemma TopicsSnoc(topics: seq<Key>)
    requires topics != []
    ensures var n := |topics| - 1; Topics(topics) == Topics(topics[..n]) + {topics[n]}
    ensures var n := |topics| - 1; forall k | k in topics[..n] :: k in topics
  {
  }

  /** The subscriptions that are sent first over a new pipe. */
  function Cached(topics: seq<Key>): seq<Msg> {
    seq(|topics|, i requires 0 <= i < |topics| => InitSubscribe(topics[i]))
  }

  lemma {:induction false} CachedReplay(topics: seq<Key>)
    ensures Replay({}, Cached(topics)) == Topics(topics) && Orderly({}, Cached(topics))
    decreases |topics|
  {
    if topics != [] {
      var n := |topics| - 1;
      CachedReplay(topics[..n]);
      assert Cached(topics)[..n] == Cached(topics[..n]);
      TopicsSnoc(topics);
    }
  }

  lemma AttachAgrees(b: Bag, s: Subs, p: Pipe, topics: seq<Key>)
    requires Held(s, p) == {} && Lists(topics, b.Keys)
    ensures Agree(b, s, p, Cached(topics))
  {
    CachedReplay(topics);
  }

  /** With nothing on its way, the publisher sends a message to a pipe iff the subscriber wants it. */
  lemma DrainedAgrees(b: Bag, s: Subs, p: Pipe, data: Key)
    requires Agree(b, s, p, [])
    ensures p in Interested(s, data) <==> Accepts(b, data)
  {
    if p in Interested(s, data) {
      var i :| 0 <= i <= |data| && p in Holders(s, data[..i]);
      assert data[..i] in Held(s, p);
    }
    if Accepts(b, data) {
      var i :| 0 <= i <= |data| && data[..i] in b;
      assert data[..i] in b.Keys;
      assert data[..i] in Held(s, p);
      assert p in Holders(s, data[..i]);
    }
  }

  // ------------------------------------------------------------------ notifications

  /** What the publisher queues for the application on reading a message from a pipe. */
  function Notes(s: Subs, p: Pipe, m: Msg): seq<Key> {
    match XPubReads(m)
    case Add(t) => if t !in s then [[1] + t] else []
    case Drop(t) => if RmOutcome(s, t, p) != ValuesRemain then [[0] + t] else []
    case User => [m.data]
  }

  /** `n` single-part messages. */
  function Last(n: nat): seq<bool> {
    seq(n, _ => false)
  }

  /** Whether more parts follow what it queues: news has one part, other messages keep their flag. */
  function NoteFlags(s: Subs, p: Pipe, m: Msg): seq<bool> {
    if XPubReads(m) == User then [m.more] else Last(|Notes(s, p, m)|)
  }

  /** What it queues when a pipe goes away. */
  function Farewell(topics: seq<Key>): seq<Key> {
    seq(|topics|, i requires 0 <= i < |topics| => [0] + topics[i])
  }

  /** The topics that an application believes to be subscribed to, from all it was told. */
  function Believed(notes: seq<Key>): set<Key> {
    if notes == [] then {} else Effect(Believed(notes[..|notes| - 1]), PlainOp(notes[|notes| - 1]))
  }

  /** Subscriptions and cancellations of every topic take turns. */
  predicate Alternating(notes: seq<Key>) {
    notes != [] ==>
      var before, op := notes[..|notes| - 1], PlainOp(notes[|notes| - 1]);
      && Alternating(before)
      && (op.Add? ==> op.topic !in Believed(before))
      && (op.Drop? ==> op.topic in Believed(before))
  }

  ghost predicate Truthful(s: Subs, notes: seq<Key>) {
    Believed(notes) == s.Keys && Alternating(notes)
  }

  lemma NotesShort(s: Subs, p: Pipe, m: Msg, notes: seq<Key>)
    ensures var n := Notes(s, p, m); n == [] || (n == [n[0]] && (notes + n)[..|notes|] == notes)
    ensures Notes(s, p, m) == [] ==> notes + Notes(s, p, m) == notes
  {
  }

  /** Exactly when the application is still told the truth after a message. */
  lemma NotifyExact(s: Subs, p: Pipe, m: Msg, notes: seq<Key>)
    requires Proper(s) && Truthful(s, notes)
    ensures var op, s', notes' := XPubReads(m), Heard(s, p, m), notes + Notes(s, p, m);
      && (Believed(notes') == s'.Keys <==> !(op.Drop? && op.topic in s && p !in s[op.topic]))
      && (Alternating(notes') <==> !(op.Drop? && op.topic !in s))
  {
    NotesShort(s, p, m, notes);
    var op, s' := XPubReads(m), Heard(s, p, m);
    match op
    case Add(t) =>
      assert PlainOp([1] + t) == Add(t);
      assert s'.Keys == s.Keys + {t};
    case Drop(t) =>
      assert PlainOp([0] + t) == Drop(t);
      CancelledKeys(s, t, p);
    case User =>
      assert PlainOp(m.data) == User;
  }

  lemma CancelledKeys(s: Subs, t: Key, p: Pipe)
    requires Proper(s)
    ensures RmOutcome(s, t, p) == LastValueRemoved ==> Cancelled(s, t, p).Keys == s.Keys - {t} && t in s
    ensures RmOutcome(s, t, p) != LastValueRemoved ==> Cancelled(s, t, p).Keys == s.Keys
    ensures RmOutcome(s, t, p) == ValuesRemain ==> p in Holders(s, t)
  {
  }

  /** A cancellation by a pipe that holds nothing makes the application forget a live topic. */
  lemma FalseNotification()
    ensures var t: Key := [7]; var s: Subs := map[t := {1}]; var m := InitCancel(t);
      && Truthful(s, [[1] + t]) && Heard(s, 2, m) == s
      && Believed([[1] + t] + Notes(s, 2, m)) == {}
  {
    var t: Key := [7];
    var s: Subs := map[t := {1}];
    assert Believed([]) == {} && PlainOp([1] + t) == Add(t) && PlainOp([0] + t) == Drop(t);
    assert [[1] + t][..0] == [];
    assert Believed([[1] + t]) == {t};
    assert s[t] - {2} == s[t];
    assert [[1] + t, [0] + t][..1] == [[1] + t];
    assert [[1] + t] + [[0] + t] == [[1] + t, [0] + t];
  }

  lemma FarewellOne(notes: seq<Key>, t: Key)
    requires Alternating(notes) && t in Believed(notes)
    ensures Alternating(notes + [[0] + t]) && Believed(notes + [[0] + t]) == Believed(notes) - {t}
  {
  }

  lemma {:induction false} FarewellTold(notes: seq<Key>, topics: seq<Key>)
    requires Alternating(notes) && (forall k | k in topics :: k in Believed(notes))
    requires forall i, j :: 0 <= i < j < |topics| ==> topics[i] != topics[j]
    ensures Alternating(notes + Farewell(topics))
    ensures Believed(notes + Farewell(topics)) == Believed(notes) - Topics(topics)
    decreases |topics|
  {
    if topics == [] {
      assert notes + Farewell(topics) == notes;
    } else {
      var n := |topics| - 1;
      hide Alternating, Believed, PlainOp;
      TopicsSnoc(topics);
      FarewellTold(notes, topics[..n]);
      assert topics[n] !in Topics(topics[..n]);
      FarewellOne(notes + Farewell(topics[..n]), topics[n]);
      assert notes + Farewell(topics) == notes + Farewell(topics[..n]) + [[0] + topics[n]];
    }
  }

  /** When a pipe goes away, exactly the topics nobody else holds are taken back. */
  lemma FarewellTruthful(s: Subs, p: Pipe, notes: seq<Key>, topics: seq<Key>)
    requires Truthful(s, notes) && Lists(topics, Due(s, p, true))
    ensures Truthful(Dropped(s, p), notes + Farewell(topics))
  {
    FarewellTold(notes, topics);
  }

  // ------------------------------------------------------------------ any requests that cancel what is held

  /** The index, and the news, after a pipe's requests. */
  ghost function HeardAll(s: Subs, p: Pipe, msgs: seq<Msg>): Subs {
    if msgs == [] then s else Heard(HeardAll(s, p, msgs[..|msgs| - 1]), p, msgs[|msgs| - 1])
  }

  ghost function NotesAll(s: Subs, p: Pipe, msgs: seq<Msg>): seq<Key> {
    if msgs == [] then [] else
      var before := msgs[..|msgs| - 1];
      NotesAll(s, p, before) + Notes(HeardAll(s, p, before), p, msgs[|msgs| - 1])
  }

  ghost function FlagsAll(s: Subs, p: Pipe, msgs: seq<Msg>): seq<bool> {
    if msgs == [] then [] else
      var before := msgs[..|msgs| - 1];
      FlagsAll(s, p, before) + NoteFlags(HeardAll(s, p, before), p, msgs[|msgs| - 1])
  }

  /**
   Requests of a pipe that cancel only what it holds keep the news true, whoever sends them; and
   they leave the pipe with what they say.
   */
  lemma {:induction false} ReadAllTruthful(s: Subs, p: Pipe, msgs: seq<Msg>, notes: seq<Key>)
    requires Proper(s) && Truthful(s, notes) && Orderly(Held(s, p), msgs)
    ensures Proper(HeardAll(s, p, msgs)) && Held(HeardAll(s, p, msgs), p) == Replay(Held(s, p), msgs)
    ensures Truthful(HeardAll(s, p, msgs), notes + NotesAll(s, p, msgs))
    decreases |msgs|
  {
    if msgs == [] {
      assert notes + NotesAll(s, p, msgs) == notes;
    } else {
      var n := |msgs| - 1;
      var before, m := msgs[..n], msgs[n];
      ReadAllTruthful(s, p, before, notes);
      var s1, notes1 := HeardAll(s, p, before), notes + NotesAll(s, p, before);
      HeardHeld(s1, p, m, p);
      NotifyExact(s1, p, m, notes1);
      assert notes + NotesAll(s, p, msgs) == notes1 + Notes(s1, p, m);
      assert XPubReads(m).Drop? ==> XPubReads(m).topic in Held(s1, p);
      hide Heard, Notes, Believed, Alternating;
    }
  }

  /** What happens at a publisher: a pipe's requests are read, or a pipe ends with these callbacks. */
  datatype PubEvent = Requests(pipe: Pipe, msgs: seq<Msg>) | Left(pipe: Pipe, topics: seq<Key>)

  /** What a run of events leads to, in which pipes cancel only what they hold. */
  ghost predicate PubRun(s: Subs, notes: seq<Key>, events: seq<PubEvent>, s': Subs, notes': seq<Key>)
    decreases |events|
  {
    if events == [] then s' == s && notes' == notes else
      match events[0]
      case Requests(p, msgs) =>
        && Orderly(Held(s, p), msgs)
        && PubRun(HeardAll(s, p, msgs), notes + NotesAll(s, p, msgs), events[1..], s', notes')
      case Left(p, topics) =>
        && Lists(topics, Due(s, p, true))
        && PubRun(Dropped(s, p), notes + Farewell(topics), events[1..], s', notes')
  }

  /** In every such run the news replay to exactly the topics that are held, and alternate. */
  lemma {:induction false} PublisherTruthful(s: Subs, notes: seq<Key>, events: seq<PubEvent>,
                                             s': Subs, notes': seq<Key>)
    requires Proper(s) && Truthful(s, notes) && PubRun(s, notes, events, s', notes')
    ensures Proper(s') && Truthful(s', notes')
    decreases |events|
  {
    if events != [] {
      var e, rest := events[0], events[1..];
      match e
      case Requests(p, msgs) =>
        ReadAllTruthful(s, p, msgs, notes);
        PublisherTruthful(HeardAll(s, p, msgs), notes + NotesAll(s, p, msgs), rest, s', notes');
      case Left(p, topics) =>
        FarewellTruthful(s, p, notes, topics);
        DroppedHeld(s, p, p);
        PublisherTruthful(Dropped(s, p), notes + Farewell(topics), rest, s', notes');
    }
  }
}
