# Verification of the ServerLink message engine

This project models the core of ServerLink, a C++ message library ported from libzmq, and proves
properties of the model with Dafny 4.11. `dafny verify dfyconfig.toml` verifies all of it.

## What is modelled

**Subscription tries.** `TrieNodes.dfy` is the node layout that `trie_t` and `mtrie_t` share: no
child, one child, or a table with an offset. Nodes live in an explicit heap, so that a leaked or
dangling node would break the invariant. `Trie.dfy` proves that `trie_t` is a multiset of byte
strings. `MTrie.dfy` and `MTrieRemoval.dfy` prove that `mtrie_t` is a map from byte strings to
nonempty sets of pipes; the second file is the removal of a pipe everywhere, an explicit-stack walk
that revisits a node after each child and compacts tables on the way out.

**The pipe pair.** `YPipe.dfy` refines the pointer-based queue to an abstract queue with an
unflushed tail and a sleeping reader. `Pipe.dfy` is one end of a pipe, with each operation as a
function and a class proved against it. `PipePair.dfy` joins two ends by two queues and two
first-in-first-out command channels and proves that termination is safe in every run.
`PipeFlow.dfy` proves order, delayed termination without loss, and flow control that is bounded and
never stalls. `PipeWakeup.dfy` proves that no wake-up is lost, `PipeEnding.dfy` that a termination
comes to its end, and `PipeDelivery.dfy` what the users of both ends get.

**Distribution and fair queueing.** `PipeArray.dfy` is the array whose items know their positions,
`Msg.dfy` the reference counts of messages, `Dist.dfy` the distributor with its three nested regions,
`Fq.dfy` the fair queue.

**ZMTP framing.** `Wire.dfy`, `Zmtp.dfy` and `ZmtpDecoder.dfy` are the incremental v3.1 encoder and
v2 decoder over buffers of any size, following the "Framing" section of 37/ZMTP, and the commands
that carry subscriptions.

**Publish and subscribe.** `PubSub.dfy` relates the index of a subscriber to that of a publisher
with messages on their way; `PubSubNet.dfy` proves the agreement over whole runs of any number of
sockets; `XSub.dfy` and `XPub.dfy` are the sockets in place, over the tries and the distributor.

**Shutdown, mailboxes, receive buffers, patterns.** `Own.dfy`, `OwnTree.dfy` and `OwnPipes.dfy`
are the shutdown of a tree of objects, `Mailbox.dfy` the wake-up signal of a mailbox with any number of senders,
`SharedBuffer.dfy` the receive buffers that messages keep alive, `ZeroCopy.dfy` the decoder in place
over these buffers, with their memory, and `Glob.dfy` the glob patterns.

`Bytes.dfy` and `Arith.dfy` hold what the others share.

## How to read it

Code that updates fields is a class whose methods are proved against functions or sets; code that
several threads run is a step function over a state, and the theorems are about every run of it.
Ghost fields and history fields (what was written, sent or told so far) serve the statements only.
The environment appears as parameters: the pipes a write to which fails (`full`), what can be read
from each pipe (`inbox`), the sizes of buffers, the order in which a set is walked (`topics`).

## What does not hold, and exactly when it does

- A cancellation of a topic that starts with the byte 1 is taken for a subscription by `xsub_t`
  (src/core/xsub.cpp:179), because the first byte is looked at before the cancel flag.
  `PubSub.ReadAlike` shows that this is the only request the two ends read differently,
  `PubSub.MisreadExact` when the two ends still agree after it, `PubSub.MisreadCase` a failure.
- `xpub_t` notifies its application of a cancellation by a pipe that does not hold the topic
  (src/core/xpub.cpp:124). `PubSub.NotifyExact` gives the exact condition for the news to stay true
  and for them to alternate, `PubSub.FalseNotification` a failure. Requests that come from `xsub_t`
  always meet the condition (`PubSubNet.NotificationsTrue`).
- `fq_t::pipe_terminated` can move the current position away from a pipe whose message is open
  (src/pipe/fq.cpp:34). `FairQueues.CurrentKept` gives the exact condition,
  `FairQueues.CurrentLost` a failure.
- The comment on `fq_t::has_in` says that the current position gets back to its original value when
  no message is available (src/pipe/fq.cpp:102-105). By the code it is then 0:
  `FairQueues.HasInResets` shows that the comment holds iff it was 0 before, `FairQueues.HasInMoves`
  a failure.
- The comment on `ypipe_t::flush` says that false means a sleeping reader (src/util/ypipe.hpp:69-71),
  but with nothing to flush it returns true also if the reader sleeps. The contract of
  `YPipes.YPipe.Flush` is the exact condition, `YPipes.FlushOverSleep` a case.

## Model

| member | source | states |
|---|---|---|
| `TrieNodes.Grow` | src/pipe/trie.cpp:38-79 | making room for a byte moves no child: every slot stands where it stood, for one slot and for tables that grow either way |
| `TrieNodes.Extend` | src/pipe/trie.cpp:38-97 | after a new child is stored its slot leads to it, all other slots are as before, and the live count is one larger |
| `TrieNodes.ShrinkLeft` | src/pipe/trie.cpp:157-183 | a table whose first entry went is cut to start at its first child, with the same children |
| `TrieNodes.ShrinkRight` | src/pipe/trie.cpp:184-205 | a table whose last entry went is cut to end at its last child, with the same children |
| `TrieNodes.AddChild` | src/pipe/trie.cpp:81-97 | a new node below an existing one keeps the whole shape (links, prefixes, no leaked and no dangling node) and every stored value |
| `TrieNodes.DropChild` | src/pipe/trie.cpp:118-206 | deleting a redundant node keeps the whole shape and every stored value |
| `TrieNodes.VisitChild` | src/pipe/trie.cpp:252-290 | walking into the child for one byte adds exactly the keys stored below it, none of them met before |
| `TrieNodes.Tree.Descend` | src/pipe/trie.cpp:29-98 | one step down the trie, creating the child if it is missing, changes no stored value |
| `TrieNodes.Tree.Unlink` | src/pipe/trie.cpp:118-206 | removal of a redundant child from the heap of nodes keeps the trie in order |
| `Tries.Prune` | src/pipe/trie.cpp:118-206 | a table that loses a child is compact again; with two entries live the survivor of the two is found at an end of the table |
| `Tries.Trie.Add` | src/pipe/trie.cpp:29-98 | the trie holds one more copy of the key; true iff there was none |
| `Tries.Trie.AddAt` | src/pipe/trie.cpp:29-98 | the recursive addition changes the count of one key and leaves the trie in order |
| `Tries.Trie.Rm` | src/pipe/trie.cpp:100-209 | the trie holds one copy less; true iff that was the last; an absent key changes nothing |
| `Tries.Trie.RmAt` | src/pipe/trie.cpp:100-209 | the recursive removal changes the count of one key and leaves at most the node it started from redundant |
| `Tries.Trie.Check` | src/pipe/trie.cpp:211-242 | true iff some stored key is a prefix of the data |
| `Tries.Trie.Apply` | src/pipe/trie.cpp:244-290 | one call for every stored key, with exactly its bytes, whatever its number of copies |
| `Tries.Trie.ApplyAt` | src/pipe/trie.cpp:252-290 | the walk below one node meets exactly the keys stored there, with the buffer reallocated as the depth requires |
| `Tries.Counted` | src/pipe/trie.cpp:29-209 | after every run of additions and removals the trie holds each key as often as it was added and not taken back |
| `MTries.Prune` | src/pipe/mtrie_impl.hpp:443-512 | the table of a node that loses a child is compact again with the same other children |
| `MTries.MTrie.Add` | src/pipe/mtrie_impl.hpp:40-126 | the map from prefix to pipes gains the pairing; true iff the prefix had no pipe |
| `MTries.MTrie.Locate` | src/pipe/mtrie_impl.hpp:42-113 | the walk down creates the nodes that are missing and changes no set |
| `MTries.MTrie.RmWalk` | src/pipe/mtrie_impl.hpp:379-522 | the walk down and back on the explicit stack changes the set of one prefix and restores the shape |
| `MTries.MTrie.Rm` | src/pipe/mtrie_impl.hpp:379-522 | the pairing leaves the map; the three results say exactly whether it was there and whether it was the last of its prefix |
| `MTries.MTrie.Match` | src/pipe/mtrie_impl.hpp:526-564 | calls back exactly the pipes stored at the prefixes of the data, prefix by prefix |
| `MTrieRemoval.RmPipe` | src/pipe/mtrie_impl.hpp:130-375 | removal by pipe: the pipe leaves every set and no other pairing changes; the callback fires once per prefix that held it, or per prefix that became empty, with its exact bytes; the walk ends and the shape is restored |
| `MTrieRemoval.Step` | src/pipe/mtrie_impl.hpp:153-372 | one turn of the loop over the explicit stack keeps the invariant of the walk and makes progress |
| `MTrieRemoval.PreVisit` | src/pipe/mtrie_impl.hpp:157-232 | a visit on the way down takes the pipe out of the set of the node, fires the callback if it is due and goes on to the next child |
| `MTrieRemoval.PostVisit` | src/pipe/mtrie_impl.hpp:233-370 | a visit on the way up deletes the child if it is redundant, remembers the range that is kept, and compacts after the last child |
| `MTrieRemoval.Settle` | src/pipe/mtrie_impl.hpp:298-368 | the compaction at the end of a table keeps exactly the children that are left |
| `MTrieRemoval.AllSwept` | src/pipe/mtrie_impl.hpp:130-375 | a walk that has ended has dealt with every set in the trie |
| `MTrieRemoval.AllTold` | src/pipe/mtrie_impl.hpp:157-168 | the calls made by then are for exactly the prefixes that were due |
| `MTrieRemoval.HeldAfter` | src/pipe/mtrie_impl.hpp:40-522 | after every run of subscriptions, cancellations and removals of pipes, a pipe holds a prefix iff it subscribed to it and neither cancelled nor left since |
| `YPipes.YPipe.Write` | src/util/ypipe.hpp:47-57 | the queue gains the item; only a complete message can be flushed |
| `YPipes.YPipe.Unwrite` | src/util/ypipe.hpp:60-69 | takes back the last item of an incomplete message, and nothing else |
| `YPipes.YPipe.Flush` | src/util/ypipe.hpp:72-95 | publishes all complete messages; false iff there was something to publish and the reader slept |
| `YPipes.FlushOverSleep` | src/util/ypipe.hpp:74-77 | a concrete queue with a sleeping reader and nothing to flush: no wake-up is reported |
| `YPipes.YPipe.CheckRead` | src/util/ypipe.hpp:98-116 | true iff there is something to read; otherwise the reader is asleep |
| `YPipes.YPipe.Read` | src/util/ypipe.hpp:119-130 | hands out the first published item, in order |
| `YPipes.YPipe.Probe` | src/util/ypipe.hpp:133-139 | looks at the first item without taking it |
| `YPipes.FirstInFirstOut` | src/util/ypipe.hpp:47-139 | in every run of writes, take-backs, flushes and reads: what was read and what is in the queue are the items of complete messages in the order of writing, and a flush leaves none of them unpublished |
| `Pipes.Pipe.constructor` | src/pipe/pipe.cpp:16-52 | an end as `pipepair` makes it, with counters at zero and the low watermark of its own inbound queue at half its high one, rounded up |
| `Pipes.Pipe.CheckRead` | src/pipe/pipe.cpp:146-170 | an end that may read stays so iff there is something to read that is not the delimiter; an empty queue makes it passive, the delimiter is taken and processed |
| `Pipes.Pipe.Read` | src/pipe/pipe.cpp:172-207 | a part is returned iff the end may read and the first item published is a part; it is that item and leaves the queue; complete messages are counted, and every multiple of the low watermark is reported to the peer |
| `Pipes.Pipe.CheckWrite` | src/pipe/pipe.cpp:209-222 | true iff the end is active and below its watermark, or has none; otherwise it is passive for writing until told |
| `Pipes.Pipe.Write` | src/pipe/pipe.cpp:224-236 | a part is accepted iff the end is active and below its watermark, or has none; it is appended to the queue, and complete messages are counted |
| `Pipes.Pipe.Rollback` | src/pipe/pipe.cpp:238-249 | exactly the unfinished message is gone from the queue |
| `Pipes.Pipe.Flush` | src/pipe/pipe.cpp:251-261 | everything complete becomes readable and nothing complete is held back; a reader that slept is called iff there was something to publish |
| `Pipes.Pipe.SetNoDelay` | src/pipe/pipe.cpp:386-389 | a later termination does not wait for what has not been read |
| `Pipes.Pipe.ProcessActivateRead` | src/pipe/pipe.cpp:263-269 | an end that slept may read again, and nothing else changes |
| `Pipes.Pipe.ProcessActivateWrite` | src/pipe/pipe.cpp:271-280 | the count of the peer is taken over and an end that was full may write again |
| `Pipes.Pipe.ProcessPipeTerm` | src/pipe/pipe.cpp:307-343 | an active end with nothing to wait for acknowledges in this step, one with delay waits for the delimiter, one that has asked itself acknowledges the crossing request |
| `Pipes.Pipe.ProcessPipeTermAck` | src/pipe/pipe.cpp:345-379 | the last ack is sent if it is due, the inbound queue is drained, and the end is gone |
| `Pipes.Pipe.Terminate` | src/pipe/pipe.cpp:391-449 | in each of the six states: what is sent, the rollback, and the delimiter as the last item, published with all before it |
| `Pipes.Pipe.ProcessDelimiter` | src/pipe/pipe.cpp:479-491 | an active end remembers that its stream has ended, a waiting one acknowledges |
| `PipePairs.SentKept` | src/pipe/pipe.cpp:307-379 | what each end has sent of the termination commands is a function of its state, after every step |
| `PipePairs.SeenKept` | src/pipe/pipe.cpp:307-379 | what each end has seen of the termination commands is a function of its state, after every step |
| `PipePairs.NextExpected` | src/pipe/pipe.cpp:307-379 | whatever command arrives next finds its end in a state that the handler asserts |
| `PipePairs.AckIsLast` | src/pipe/pipe.cpp:345-379 | nothing is ever behind a `pipe_term_ack` in its channel |
| `PipePairs.Causality` | src/pipe/pipe.cpp:307-379 | what one end has seen the other has sent |
| `PipePairs.TerminationSafety` | src/pipe/pipe.cpp:307-379 | in every run of both ends: the state assertions hold, each end sends at most one `pipe_term` and one `pipe_term_ack`, no command reaches an end that is gone, and a queue is freed only after its writer let go of it |
| `PipeEnding.TerminationCompletes` | src/pipe/pipe.cpp:307-449 | in every run: once one end has asked for termination, every command is processed and the other end has read its queue to the end, both ends are gone |
| `PipeEnding.RollbackTakesParts` | src/pipe/pipe.cpp:238-249 | in every run: whatever a rollback takes back has the more flag |
| `PipeDelivery.FlushDelivers` | src/pipe/pipe.cpp:251-261 | in every run: right after a flush, or after the `terminate` that closes the stream, the other end can read every complete message it has not read, and nothing else |
| `PipeDelivery.ReadsReturnGot` | src/pipe/pipe.cpp:172-207 | in every run, at both ends: the parts that reads returned are, in order, the history of the end without the delimiter |
| `PipeDelivery.NothingLostToUser` | src/pipe/pipe.cpp:391-449 | if one end terminates and the user of the other waits, the acknowledgement means that the reads of that user returned every complete message written, in order, and nothing else |
| `PipeFlow.OrderedKept` | src/pipe/pipe.cpp:172-261 | after every step each end has got, in order, a beginning of the complete messages written to it, and the rest is in its queue |
| `PipeFlow.NothingLost` | src/pipe/pipe.cpp:391-449 | if one end terminates and the other waits, the other acknowledges only after it has read every complete message and nothing of an unfinished one |
| `PipeFlow.WriterMetered` | src/pipe/pipe.cpp:224-236 | the counters and the credits on their way stay consistent under every step of the writer |
| `PipeFlow.ReaderMetered` | src/pipe/pipe.cpp:172-207 | the counters and the credits on their way stay consistent under every step of the reader |
| `PipeFlow.WithinHwm` | src/pipe/pipe.cpp:538-543 | in every run, both ways, the complete messages not read never exceed the high watermark that `pipepair` was given for that direction |
| `PipeFlow.MarksFixed` | src/pipe/pipe.cpp:16-52 | in every run the watermarks stay those the ends were made with |
| `PipeFlow.TellsCount` | src/pipe/pipe.cpp:196-204 | the reader tells its count whenever it is a multiple of the low watermark |
| `PipeFlow.NeverStalls` | src/pipe/pipe.cpp:456-477 | in every run, a writer blocked at its watermark has a larger count on its way to it, or enough unread messages are left that reading them sends one |
| `PipeFlow.ReadingTells` | src/pipe/pipe.cpp:172-207 | reading up to a multiple of the low watermark sends that count |
| `PipeWakeup.NoLostWakeup` | src/pipe/pipe.cpp:146-170 | in every run, an end that may read and has something to read is awake or has `activate_read` on its way |
| `PipeWakeup.AlertKept` | src/pipe/pipe.cpp:251-269 | after every step an end is asleep over an empty queue, awake, or has exactly one call on its way |
| `PipeArrays.PipeArray.PushBack` | src/core/array.hpp:58-63 | the item is last and knows its position |
| `PipeArrays.PipeArray.Swap` | src/core/array.hpp:78-85 | two items change places and every item knows its position |
| `PipeArrays.PipeArray.Erase` | src/core/array.hpp:65-76 | exactly the item is gone, the last one has its place, and every item knows its position |
| `PipeArrays.PipeArray.Has` | src/pipe/dist.cpp:38-48 | true iff the pipe is in the array, even if it once was and claims a stale position |
| `Msgs.Message.Close` | src/msg/msg.cpp:236-297 | gives up one reference; the content is freed iff it was the last |
| `Msgs.Message.AddRefs` | src/msg/msg.cpp:555-576 | the holders grow by exactly the number given, whether the content was shared before or not |
| `Msgs.Message.RmRefs` | src/msg/msg.cpp:578-620 | the holders of a long message shrink by exactly the number given and its content is freed iff none is left; other messages have nothing to count |
| `Dists.Dist.Attach` | src/pipe/dist.cpp:21-36 | the pipe is eligible at once, and active unless a message is open |
| `Dists.Dist.Match` | src/pipe/dist.cpp:50-63 | the pipe joins the matching ones iff it is eligible; the other regions keep their members |
| `Dists.Dist.Unmatch` | src/pipe/dist.cpp:81-84 | no pipe matches |
| `Dists.Dist.ReverseMatch` | src/pipe/dist.cpp:65-79 | exactly the eligible pipes that did not match now do |
| `Dists.Dist.PipeTerminated` | src/pipe/dist.cpp:86-104 | the pipe leaves every region and the receivers of an open message, and the others stay in theirs |
| `Dists.Dist.Activated` | src/pipe/dist.cpp:106-120 | a passive pipe is eligible again, and active unless a message is open |
| `Dists.Dist.Fail` | src/pipe/dist.cpp:197-211 | a pipe that refuses a write leaves all three regions, and pipes already written to keep their places |
| `Dists.Dist.WriteToMatching` | src/pipe/dist.cpp:156-182 | every matching pipe is tried exactly once, although failing pipes are swapped away under the loop; those written to are flushed iff the part is the last |
| `Dists.Dist.Distribute` | src/pipe/dist.cpp:145-190 | afterwards the references are the other holders before plus the successful writes, exactly in the counter wherever it is in use, and the content is freed iff that is zero |
| `Dists.Dist.SendToMatching` | src/pipe/dist.cpp:128-143 | a later part is tried on exactly the pipes that have had every part before it and are still attached; after the last part all eligible pipes are active |
| `Dists.Dist.SendToAll` | src/pipe/dist.cpp:122-126 | the same for all active pipes |
| `FairQueues.PassiveTurn` | src/pipe/fq.cpp:82-85 | swapping an empty pipe out never makes another pipe wait longer |
| `FairQueues.SkipKeeps` | src/pipe/fq.cpp:59-86 | only pipes without anything to read are made passive, and the search fails iff no active pipe can be read |
| `FairQueues.RecvKeeps` | src/pipe/fq.cpp:52-94 | a receive fails iff no active pipe can be read, an open message is continued from its pipe, and a pipe just served is last in turn |
| `FairQueues.RecvTurn` | src/pipe/fq.cpp:52-94 | a readable pipe is either served or one complete message nearer to its turn |
| `FairQueues.FairBound` | src/pipe/fq.cpp:52-118 | over any run of receives and polls, an active readable pipe is served after at most `active - 1` complete messages from others, and no receive fails |
| `FairQueues.NotInterleaved` | src/pipe/fq.cpp:67-75 | over any run, the parts of a message come one after the other from one pipe |
| `FairQueues.CurrentKept` | src/pipe/fq.cpp:25-38 | removal of another pipe keeps the current pipe iff it is not the case that the current pipe was the last active one and the gap is active and not at the front |
| `FairQueues.CurrentLost` | src/pipe/fq.cpp:25-38 | a concrete queue in which the rest of an open message is then read from the wrong pipe |
| `FairQueues.TerminatedKeeps` | src/pipe/fq.cpp:25-38 | the pipe is gone, no other is, and the current position is still an active pipe |
| `FairQueues.Fq.Attach` | src/pipe/fq.cpp:18-23 | the pipe is active and the current pipe stays current |
| `FairQueues.Fq.Activated` | src/pipe/fq.cpp:40-45 | the pipe is active again and the current pipe stays current |
| `FairQueues.Fq.PipeTerminated` | src/pipe/fq.cpp:25-38 | the array in place behaves as the ring of the lemmas |
| `FairQueues.Fq.RecvPipe` | src/pipe/fq.cpp:52-94 | the loop in place gives what the ring of the lemmas gives; its assertion that no message is open holds |
| `FairQueues.Fq.SwapOut` | src/pipe/fq.cpp:82-85 | the current pipe becomes passive and another takes its place |
| `FairQueues.Fq.TakeTurn` | src/pipe/fq.cpp:70-73 | the turn passes on after the last part of a message only |
| `FairQueues.Fq.HasIn` | src/pipe/fq.cpp:96-118 | true iff a message is open or some active pipe can be read, which is then the current one |
| `FairQueues.HasInResets` | src/pipe/fq.cpp:96-118 | when nothing can be read the current position gets back to its original value iff that was the front |
| `FairQueues.HasInMoves` | src/pipe/fq.cpp:102-105 | a concrete queue in which it does not |
| `Wire.Uint64RoundTrip` | src/protocol/wire.hpp:51-73 | reading back what was written gives the number, for all 64-bit numbers |
| `Wire.BigEndian` | src/protocol/wire.hpp:51-61 | the eight bytes of a number are its digits to the base 256, the most significant first |
| `Zmtp.FrameLayout` | src/protocol/v2_protocol.hpp:12-18 | the bytes of every message on the wire, as 37/ZMTP lays them out: bits 0, 1 and 2 for more, long and command, the size in one byte or in eight in network order, and the body, which for a subscription or a cancellation starts with the length and the name of the command |
| `Zmtp.CommandNames` | src/protocol/zmtp_engine.cpp:318-366 | the names of the four commands, letter by letter, each behind its length |
| `Zmtp.Encoder.MessageReady` | src/protocol/v3_1_encoder.cpp:25-78 | flags, length in one or eight bytes and the name of the command, as the frame of the message has them |
| `Zmtp.Encoder.SizeReady` | src/protocol/v3_1_encoder.cpp:80-87 | after the header comes the body, and then the next message |
| `Zmtp.Encoder.LoadMsg` | src/protocol/encoder.hpp:101-106 | the bytes handed out and still to hand out are the frames of all messages loaded |
| `Zmtp.Encoder.Fill` | src/protocol/encoder.hpp:44-99 | a buffer is filled with the next bytes of the frames, for any size of the buffer |
| `Zmtp.Encoder.Encode` | src/protocol/encoder.hpp:44-99 | what is handed out continues the frames of all messages loaded, whether it is copied or lent |
| `ZmtpDecoder.FeedConcat` | src/protocol/decoder.hpp:72-125 | the decoder may be fed a stream cut anywhere |
| `ZmtpDecoder.Decoder.Decode` | src/protocol/decoder.hpp:97-124 | the loop over a buffer does what feeding its bytes one by one does, up to the end of the first message |
| `ZmtpDecoder.Decoder.TakeSteps` | src/protocol/decoder.hpp:114-121 | the steps that need no bytes are taken at once |
| `ZmtpDecoder.Receive` | src/protocol/decoder.hpp:72-125 | over any sequence of buffers the frames depend on the stream only |
| `ZmtpDecoder.FrameRoundTrip` | src/protocol/v2_decoder.cpp:36-146 | a frame as the encoder writes it, within the size limit, is decoded to itself |
| `ZmtpDecoder.AnyFrameRead` | src/protocol/v2_decoder.cpp:36-146 | any frame within the limit, also one the encoder would not write, is read by what its bytes say: unknown flag bits do not matter and a long length may announce a short body |
| `ZmtpDecoder.MsgRoundTrip` | src/protocol/v3_1_encoder.cpp:25-87 | the frame of a message is decoded to its flags and its body with the name of its command |
| `ZmtpDecoder.TooLargeIsError` | src/protocol/v2_decoder.cpp:71-80 | any frame whose announced size is over the limit is an error and nothing of it gets through |
| `ZmtpDecoder.StreamRoundTrip` | src/protocol/v2_decoder.cpp:36-146 | the frames of any messages within the limit are decoded to these messages, in order |
| `ZmtpDecoder.Send` | src/protocol/encoder.hpp:44-106 | the sending loop writes the frames of the messages, into given buffers of any positive sizes and into buffers lent by the encoder |
| `ZmtpDecoder.Transmit` | src/protocol/v2_decoder.cpp:36-146 | end to end: what the encoder wrote, in given or lent buffers, received in any recut of it, is the same messages in order |
| `ZmtpDecoder.Recut` | src/protocol/decoder.hpp:72-125 | any cutting of a stream makes up the same stream |
| `ZmtpDecoder.CommandIff` | src/protocol/zmtp_engine.cpp:318-366 | a command is taken for one of the four iff it starts with the length and the name of that one, and left alone iff it has no room for its name |
| `ZmtpDecoder.BodyAfterName` | src/msg/msg.cpp:520-553 | the body of a command that came over the wire is what follows its name, for all four commands |
| `ZmtpDecoder.TopicRoundTrip` | src/msg/msg.cpp:520-553 | a subscription or cancellation over the wire gives back its kind and its exact topic |
| `PubSub.ReadAlike` | src/core/xsub.cpp:179-205 | both ends read a request alike iff it is not a cancellation of a topic that starts with the byte 1 |
| `PubSub.RequestMeanings` | src/core/xsub.cpp:164-213 | what each end takes every message for: a subscription, a cancellation, and of which topic, or a message of the user |
| `PubSub.WireKeepsMeaning` | src/core/xpub.cpp:91-104 | what the publisher reads from a request is the same with and without ZMTP framing in between |
| `PubSub.SendAgrees` | src/core/xsub.cpp:164-213 | sending a request keeps what the publisher will hold for the pipe equal to what the subscriber counts |
| `PubSub.MisreadExact` | src/core/xsub.cpp:179-193 | for cancellations of a topic that starts with the byte 1, agreement survives iff the topic was not held and its rest was |
| `PubSub.MisreadCase` | src/core/xsub.cpp:179-193 | a subscriber of the one-byte topic 1 that cancels ends with nothing upstream and a filter that accepts everything |
| `PubSub.DeliverAgrees` | src/core/xpub.cpp:75-132 | reading a request keeps the agreement |
| `PubSub.AttachAgrees` | src/core/xsub.cpp:36-50 | the cached subscriptions sent over a new pipe establish the agreement |
| `PubSub.DrainedAgrees` | src/pipe/mtrie_impl.hpp:526-564 | with nothing on its way, the publisher picks the pipe iff the filter of the subscriber accepts the message |
| `PubSub.NotifyExact` | src/core/xpub.cpp:110-160 | after a request the application is told the truth iff it was not a cancellation by a pipe without the topic while others hold it; news of a topic alternate iff it was not a cancellation of a topic nobody holds |
| `PubSub.FalseNotification` | src/core/xpub.cpp:121-125 | a concrete cancellation by a pipe without the topic after which the application believes nobody holds a topic that is held |
| `PubSub.FarewellTruthful` | src/core/xpub.cpp:286-310 | the news queued when a pipe ends take back exactly the topics nobody else holds |
| `PubSub.FarewellTold` | src/core/xpub.cpp:413-433 | cancellations of distinct topics that were told of are each news and take back exactly these topics |
| `PubSub.ReadAllTruthful` | src/core/xpub.cpp:75-174 | requests of a pipe that cancel only what it holds keep the news true, whoever sends them, and leave the pipe with what they say |
| `PubSub.PublisherTruthful` | src/core/xpub.cpp:75-174 | in every run of a publisher whose pipes cancel only what they hold, with pipes ending at any time, the news replay to exactly the topics held and alternate |
| `PubSubNet.StepGood` | src/core/xpub.cpp:75-174 | every step of any network of subscribers and publishers keeps all pipes in agreement and all applications truthfully told |
| `PubSubNet.SubscriptionsAgree` | src/core/xsub.cpp:36-213 | in every run of any network: once the requests on a pipe are read, the publisher holds for it exactly what its subscriber counts, and sends it a message iff the subscriber accepts it |
| `PubSubNet.NotificationsTrue` | src/core/xpub.cpp:110-160 | in every run of any network: replaying all news gives exactly the topics that some pipe holds, with strict alternation per topic |
| `XSubs.XSub.AttachPipe` | src/core/xsub.cpp:36-50 | the new pipe gets one subscription message for every cached topic |
| `XSubs.XSub.PipeTerminated` | src/core/xsub.cpp:62-66 | nothing more is sent to the pipe; the counts stay |
| `XSubs.XSub.Send` | src/core/xsub.cpp:164-213 | requests change the counts; every attached pipe gets the message, except that a cancellation goes upstream iff it was the last of its topic |
| `XSubs.XSub.Match` | src/core/xsub.cpp:305-306 | true iff some subscription is a prefix of the data |
| `XPubs.XPub.Process` | src/core/xpub.cpp:79-173 | one request changes the index and the news exactly as the specification of the lemmas says; a message of the user is queued as it is, with its flag |
| `XPubs.XPub.Queue` | src/core/xpub.cpp:146-170 | what is queued comes last, with its own flag |
| `XPubs.XPub.Classify` | src/core/xpub.cpp:91-104 | the topic and the kind of a request, or that it is a message of the user |
| `XPubs.XPub.Apply` | src/core/xpub.cpp:120-131 | the index after a request, and whether the application is told |
| `XPubs.XPub.SendUnsubscriptions` | src/core/xpub.cpp:413-433 | one cancellation for each topic, in the order of the callbacks |
| `XPubs.XPub.ReadActivated` | src/core/xpub.cpp:75-174 | the same for all requests a pipe holds, with the flags of all that is queued |
| `XPubs.XPub.AttachPipe` | src/core/xpub.cpp:45-73 | a new pipe is known to the distributor before its requests are read |
| `XPubs.XPub.PipeTerminated` | src/core/xpub.cpp:286-310 | the pipe leaves index and distributor, with the news that are due |
| `XPubs.XPub.Recv` | src/core/xpub.cpp:367-406 | the application gets the news in the order in which they were queued, each with its own flag |
| `XPubs.XPub.MarkMatching` | src/core/xpub.cpp:327-340 | exactly the eligible pipes with a subscription to a prefix of the data match |
| `XPubs.XPub.Send` | src/core/xpub.cpp:323-360 | the first part goes to exactly those pipes, every later part to exactly those that took all parts before and are still attached, and the last part is flushed |
| `Owns.Own.CheckAcks` | src/core/own.cpp:165-180 | the object ends iff it is terminating, has caught up and waits for no ack; its children are gone then |
| `Owns.Own.IncSeqnum` | src/core/own.cpp:39-43 | a command announced keeps the object from ending before it is processed |
| `Owns.Own.ProcessSeqnum` | src/core/own.cpp:45-52 | one command more is processed, and the object ends if that was the last thing it waited for |
| `Owns.Own.Terminate` | src/core/own.cpp:105-121 | a root terminates itself and any other object asks its owner, unless it is terminating already |
| `Owns.Own.ProcessTermAck` | src/core/own.cpp:146-163 | one ack less to wait for, and the object ends if that was the last thing it waited for |
| `Owns.Own.ProcessOwn` | src/core/own.cpp:91-103 | a child is owned, or asked to terminate at once |
| `Owns.Own.ProcessTermReq` | src/core/own.cpp:71-89 | a child is asked to terminate iff it is owned and the object is not terminating |
| `Owns.Own.ProcessTerm` | src/core/socket_base.cpp:991-1004 | every pipe and every child is asked once, and as many acks are waited for |
| `Owns.Own.ProcessBind` | src/core/socket_base.cpp:986-989 | a pipe that comes by command is attached and the command counted |
| `Owns.Own.AttachPipe` | src/core/socket_base.cpp:208-225 | a pipe that comes late is asked to terminate at once |
| `Owns.Own.PipeTerminated` | src/core/socket_base.cpp:1077-1087 | a pipe that ends is forgotten in any case, and counts as an ack iff the socket is terminating |
| `OwnTree.DestroyedIsDone` | src/core/own.cpp:165-180 | a destroyed object has no command on its way to it and only children that are gone |
| `OwnTree.AlwaysSafe` | src/core/own.cpp:71-180 | whatever arrives finds its object alive and no assertion of a handler fails |
| `OwnTree.TakeAckInv` | src/core/own.cpp:151-163 | an ack taken by the owner is one it waits for |
| `OwnTree.TermInv` | src/core/own.cpp:128-144 | the start of a termination asks every owned child once and keeps the invariant |
| `OwnTree.LaunchInv` | src/core/own.cpp:54-64 | a launch keeps the invariant: the new child is on its way to be owned |
| `OwnTree.AttachInv` | src/core/socket_base.cpp:208-225 | a pipe attached without a command keeps the invariant |
| `OwnTree.StepInv` | src/core/own.cpp:39-180 | every step keeps the invariant of the tree: counters match commands and acks on their way, and every child is at exactly one point of its life |
| `OwnTree.RequestSent` | src/core/own.cpp:105-121 | an object with an owner asks it for its termination |
| `OwnTree.RequestHonoured` | src/core/own.cpp:71-89 | an owner that takes the request sends `term` to a child it owns and lets go of it |
| `OwnTree.ShutdownSafe` | src/core/own.cpp:39-180 | in every run of a tree of objects, the next event is safe |
| `OwnTree.ShutdownClean` | src/core/own.cpp:39-180 | in every run: no child is sent `term` twice, a terminating socket waits for its unacked children and its pipes exactly, and a destroyed object leaves nothing behind |
| `OwnPipes.ShutdownCounts` | src/core/socket_base.cpp:991-1087 | in every run: a socket holds exactly the pipes that came to it and have not reported their end, once terminating it waits for exactly one ack from each of them and each unacked child, and it is destroyed iff it is terminating and none is left and no numbered command is on its way |
| `OwnPipes.RunPipes` | src/core/socket_base.cpp:1077-1087 | in every run the pipes of an object are those that its attachments and ends of pipes leave |
| `OwnTree.QuietEnds` | src/core/own.cpp:165-180 | with nothing on its way and no pipe left, a terminating object is gone |
| `OwnTree.ShutdownCompletes` | src/core/own.cpp:39-180 | in every run: when nothing is on its way any more and no pipe is left, the whole tree of a terminating object is gone |
| `Mailboxes.StepInv` | src/io/mailbox.cpp:33-75 | every step of senders and receiver keeps the invariant of the signal and loses no command |
| `Mailboxes.WakeUp` | src/io/mailbox.cpp:33-75 | in every run of any number of senders: at most one signal is pending or about to be sent, the read after a signal finds a command, a queued command never waits on a sleeping receiver, and commands arrive in order |
| `Mailboxes.Mailbox.constructor` | src/io/mailbox.cpp:8-16 | the receiver starts asleep |
| `Mailboxes.Mailbox.SendLocked` | src/io/mailbox.cpp:33-41 | the part under the lock, with the decision to signal |
| `Mailboxes.Mailbox.RaiseSignal` | src/io/mailbox.cpp:39-40 | the signal, sent after the lock is given back, is the only one on its way |
| `Mailboxes.Mailbox.Recv` | src/io/mailbox.cpp:43-75 | a command is received iff one is queued and no sender is still about to signal; the read after the signal succeeds |
| `SharedBuffers.PackedCount` | src/protocol/decoder_allocators.cpp:13-21 | messages that lie one after the other and are not small take at least their number times the smallest size |
| `SharedBuffers.PackedDisjoint` | src/protocol/v2_decoder.cpp:93-115 | messages placed one behind the other share no byte |
| `SharedBuffers.Allocator.Allocate` | src/protocol/decoder_allocators.cpp:39-76 | a buffer free of messages: the one in use if it is, else a new one, while the old one stays with its messages |
| `SharedBuffers.Allocator.Deallocate` | src/protocol/decoder_allocators.cpp:78-88 | the buffer in use is freed iff no message lies in it |
| `SharedBuffers.Allocator.SizeReady` | src/protocol/v2_decoder.cpp:93-115 | a message stays in the buffer iff it fits and is not small; its content slot is one of those behind the buffer |
| `SharedBuffers.Allocator.CallDecRef` | src/protocol/decoder_allocators.cpp:109-119 | the last message to go frees the buffer iff the decoder has let go of it |
| `SharedBuffers.Allocator.SlotsSuffice` | src/protocol/decoder_allocators.cpp:13-21 | the content slots used never exceed the slots there are |
| `SharedBuffers.Allocator.NothingLeaks` | src/protocol/decoder_allocators.cpp:39-119 | with the decoder gone and all messages closed, every buffer was freed exactly once |
| `ZeroCopy.WriteIntact` | src/protocol/decoder.hpp:97-110 | a write behind the messages handed out in a buffer leaves each of them as it was |
| `ZeroCopy.TookGood` | src/protocol/decoder.hpp:97-110 | taking bytes for the current step overwrites no message handed out, whether they are in place or copied to another buffer |
| `ZeroCopy.SeatedGood` | src/protocol/v2_decoder.cpp:93-138 | a message placed where the decoder stands lies behind all messages handed out in the buffer |
| `ZeroCopy.DoneGood` | src/protocol/v2_decoder.cpp:140-146 | a message handed out keeps its buffer alive and lies behind those handed out before |
| `ZeroCopy.ZeroCopyDecoder.constructor` | src/protocol/v2_decoder.cpp:15-28 | a decoder starts like the copying one, with a buffer |
| `ZeroCopy.ZeroCopyDecoder.GetBuffer` | src/protocol/decoder.hpp:44-64 | the buffer handed out for reading has no message in it, or is the rest of the message in progress |
| `ZeroCopy.ZeroCopyDecoder.SizeReadyStep` | src/protocol/v2_decoder.cpp:71-138 | the decoder stands behind the last message placed, as the allocator needs, and goes on like the copying one |
| `ZeroCopy.ZeroCopyDecoder.TakeStep` | src/protocol/v2_decoder.cpp:36-146 | one step in place does what one step of the copying decoder does |
| `ZeroCopy.ZeroCopyDecoder.Decode` | src/protocol/decoder.hpp:97-124 | decoding in the buffer gives what feeding its bytes to the copying decoder gives |
| `ZeroCopy.ZeroCopyDecoder.DecodeDirect` | src/protocol/decoder.hpp:81-95 | the same for bytes that were read straight into a message |
| `ZeroCopy.ZeroCopyDecoder.HandleRead` | src/protocol/stream_engine_base.cpp:197-213 | the same for all bytes of one read, message by message |
| `ZeroCopy.ZeroCopyDecoder.Close` | src/protocol/decoder_allocators.cpp:109-119 | closing a message handed out affects no other and not the decoder |
| `ZeroCopy.ZeroCopyDecoder.Promises` | src/protocol/decoder_allocators.cpp:13-21 | at any time the content slots have sufficed, no two messages share a byte and none was overwritten |
| `ZeroCopy.ZeroCopyDecoder.Destroy` | src/protocol/v2_decoder.cpp:30-34 | after the decoder buffers are alive through their messages only, and without messages each was freed exactly once |
| `ZeroCopy.Connection` | src/protocol/stream_engine_base.cpp:129-230 | for every stream, reads of any sizes and messages closed at any time: the frames of the copying decoder, enough content slots, messages disjoint and never overwritten |
| `ZeroCopy.TransmitInPlace` | src/protocol/stream_engine_base.cpp:129-230 | messages sent in any buffers and decoded in place arrive as the same messages in order |
| `Globs.CharClassMatch` | src/pattern/glob_pattern.cpp:195-220 | true iff the byte is among the members or in a range, turned round for a negated class |
| `Globs.MatchImpl` | src/pattern/glob_pattern.cpp:127-193 | backtracking accepts exactly the strings that can be cut into one part for each segment |
| `Globs.MatchesFirst` | src/pattern/glob_pattern.cpp:127-193 | the language of a pattern, seen from its first segment |
| `Globs.ParseCharClass` | src/pattern/glob_pattern.cpp:64-111 | the members, the ranges, the negation and the position of the closing bracket, or failure |
| `Globs.Compile` | src/pattern/glob_pattern.cpp:28-62 | the loop gives the segments whose texts make up the pattern, or failure if there are none |
| `Globs.CompiledIff` | src/pattern/glob_pattern.cpp:28-111 | a pattern compiles to given segments iff it is texts of them one after the other: an ordinary byte for itself, any byte behind a backslash, a backslash for itself at the end, a class opened plainly or with either sign of negation with members and ranges in any order; a pattern that is no such text is an error |
| `Globs.CompileRoundTrip` | src/pattern/glob_pattern.cpp:28-111 | a pattern compiles to the segments it was written for, however each of them was written |
| `Globs.PatternCompiles` | src/pattern/glob_pattern.cpp:28-111 | segments have a pattern, for every class whose ranges and members can be written one after the other |
| `Globs.OrdinaryMatches` | src/pattern/glob_pattern.cpp:28-62 | a pattern without special bytes compiles to their literals and matches the string it is and no other |
| `Globs.EscapeMatches` | src/pattern/glob_pattern.cpp:28-62 | the pattern that escapes every byte of a string compiles, and matches that string and no other |

## Left out

- MTrieRemoval.RmPipe: says nothing about `num_prefixes`, which that walk does not update (src/pipe/mtrie_impl.hpp:157-168); elsewhere the counter is only known to be at least the number of prefixes.
- Dists.Dist.Match: assumes that no message is open, as `xpub_t` and `xsub_t` call it.
- Dists.Dist.Unmatch: assumes that no message is open.
- Dists.Dist.ReverseMatch: assumes that no message is open.
- Dists.Dist.Activated: assumes that the pipe is passive, as the pipe reports it only then.
- Dists.Dist.SendToMatching: assumes that the parts of one message are all sent to matching pipes; `check_hwm` and `has_out` are not modelled.
- Dists.Dist.SendToAll: assumes that the parts of one message are all sent to all pipes.
- Msgs.Message.Close: message metadata and group names, which have counters of their own, are not modelled.
- FairQueues.Fq.RecvPipe: assumes that the next part of an open message can be read, which `flush` of whole messages provides.
- FairQueues.FairBound: while no pipe is attached, activated or terminated; an attached pipe may take a place before a waiting one.
- ZmtpDecoder.Decoder.Decode: copies into the message; `ZeroCopy.dfy` proves that decoding in place gives the same. Nothing is said about a decoder after it has reported an error.
- ZeroCopy.Connection: for receive buffers of more than 8 bytes; with smaller ones `get_buffer` hands out the scratch space of the header (src/protocol/decoder.hpp:56) and src/protocol/v2_decoder.cpp:95-96 then subtracts pointers into different objects, which has no meaning to model. A message that cannot be passed on at once stops the reading; it is taken to be passed on.
- ZmtpDecoder.Transmit: messages within the size limit of the receiver; `size_t` is taken to hold every 64-bit size.
- SharedBuffers.Allocator.SizeReady: `resize`, which nothing calls, is not modelled, and `malloc` succeeds.
- XSubs.XSub.Send: default options (`SL_ONLY_FIRST_SUBSCRIBE` and `SL_XSUB_VERBOSE_UNSUBSCRIBE` off); every attached pipe takes every request, as long as none is at its watermark.
- XSubs.XSub.AttachPipe: the fair queue and the distributor, which also get the pipe, are modelled in `Fq.dfy` and `Dist.dfy`, not in this class.
- XSubs.XSub.PipeTerminated: the same.
- XSubs.XSub.Match: without pattern subscriptions and inverted matching.
- PubSubNet.SubscriptionsAgree: single-part requests, pipes that drop nothing, and no cancellation of a topic that starts with the byte 1; the limits come from the code (see above and src/core/xsub.cpp:341-360).
- XPubs.XPub.Process: default options; manual mode, the verbose modes, the welcome message and message metadata are not modelled.
- XPubs.XPub.AttachPipe: without subscription to everything and the welcome message.
- XPubs.XPub.Send: lossy, without inverted matching.
- Owns.Own.ProcessTerm: without linger; the overrides of `session_base_t` are not modelled, and the inproc `bind` that is sent without `inc_seqnum` (src/core/socket_base.cpp:534) is outside the model.
- OwnTree.ShutdownSafe: `inc_seqnum` is only called on an object that is still there.
- Mailboxes.Mailbox.Recv: a timeout is a receive that finds no signal.
- Pipes.Pipe.Read: without credentials; hiccups, changes of the watermarks after creation, conflating pipes and the disconnect and hiccup messages are not modelled.
- Globs.PatternCompiles: not for a class with the member `]`, which has no escape in a class, nor with a member `-` between two others, when its ranges are written first; `Globs.CompiledIff` covers every pattern.
- Counters are unbounded: the wrap-around of `uint64_t` and `uint32_t` counters and of reference counts is not modelled.
- Each operation of `ypipe_t` is one step; its memory order is not modelled.
- Not modelled at all: ROUTER, DEALER and the other socket types, topic registry, SPOT nodes, connection management, options, context slots, engines, pollers, signaler file descriptors, addresses, proxies and the C interface; they are I/O or bookkeeping that would add members but no harder properties.
- The v2 encoder: the v3.1 encoder is modelled instead.
