# A verified model of an MQTT 3.1.1 broker

This project models the core of an MQTT 3.1.1 broker written in C++ and proves
what that core is for: which subscribers a publication reaches, what the QoS 1
and QoS 2 handlers guarantee over every interleaving of packets and timers, how
a TCP stream becomes packets and back, and what a session keeps in step. Objects
that the broker updates in place are Dafny classes with the same fields;
each method is tied to a specification function, and the theorems about whole
runs are stated on those functions.

`dafny verify dfyconfig.toml` checks everything.

## Parts

- **Index** (`Filter`, `TrieSpec`, `TopicTree`, `TrieRuns`). The subscription
  trie is a heap of linked nodes. One ghost map from paths to nodes describes it.
  The stack walk of `lookup` is proved to return what a scan of all subscribed
  filters returns. After any run of operations a lookup is told by the
  operations alone: a live session's entry is found once per matching filter it
  last subscribed to.
- **Delivery** (`PacketIds`, `InFlight`, `AtMostOnce`, `ExactlyOnce`,
  `Retransmission`, `ClientTables`, `FanOut`, `Qos1Handler`, `Qos2Handler`,
  `DeliveryEngine`). Both handlers refine one flat state machine whose steps are
  the locked sections of the code. The machine's log carries the safety theorems; the handlers' `outbox`,
  to which their code appends every packet it hands to a session, is kept equal
  to what that log records. Each handler keeps the history of its steps, so the
  theorems hold of every handler that its methods can produce (`Guarantees`).
- **Wire** (`RemainingLength`, `Buffer`, `Framing`, `PacketParser`, `Packets`,
  `SubscribePackets`, `DeliveredBytes`). Two length decoders, an incremental
  parser, builders and parsers that undo each other, and the bytes of what the
  handlers deliver.
- **Session** (`Subscriptions`, `Agreement`, `SubscriptionRuns`,
  `SessionHandlers`, `WriteQueue`, `AuthLimit`, `AclCache`).

## Conventions

- A session is a number; `expired` is the set of sessions whose weak pointer no
  longer locks. `connected` is the set of sessions that are connected when a
  handler asks. `clientOf` gives a session's client identifier, which is fixed
  once it is connected.
- Clocks, database answers and configuration values are parameters or constants
  of a class. Methods that throw return a `Result`.
- Each locked section is one step. A timer tick may come at any time.
- Topics are Dafny strings; on the wire, strings are byte sequences. A topic of
  the broker is a string of octets, which `DeliveredBytes` takes to bytes and back.
- `serial` numbers tracked messages for the proofs; the wire does not carry it.

## Where the code is not what one might expect

Each of these is stated and proved rather than assumed away.

- `split` drops a trailing `/`, so `a` and `a/` share a node. A path is called
  canonical when it is non-empty and does not end in `/`. `JoinSplitExactly` says
  that exactly these survive splitting; `SubscribeKeepsIff` and
  `UnsubscribeKeepsIff` say exactly when an alias breaks the stored list, and
  `AliasWitness` shows it happening.
- `topic::matches` does not match `home` against `home/#`; the trie does.
  `MatchesVersusSpec` says that this is the only difference. Retained messages are
  replayed by the former and publications routed by the latter
  (`ReplayVersusPublication`).
- A QoS 2 message can be forgotten before PUBREL was sent for it (retry
  exhaustion, an early PUBCOMP, an unmatched PUBREL, no connection when PUBREC
  comes). The receiver still holds the identifier and drops the next message
  under it, however much later: `LossWitness`. `AcceptedAre` says for every run
  exactly which messages are passed on, and `ExactlyOnceIff` that delivery is
  exactly once if and only if no message goes out under such an identifier.
- `build_publish` cuts the length of a topic to 16 bits: `PublishRoundTripIff`.
- The second length decoder asks for a fifth byte before it reports a malformed
  length (`RemainingLength.Read`); on packets that framing yields the two decoders
  agree (`FramedHeader`).
- A session that connects again after a failed write, or after a write completed
  while it was closed with more packets queued, never writes again: `StuckWitness`,
  `StuckForever`. `MovingIff` says that this is exactly when a connected queue
  stands still; order, single write and length bound hold in every run all the same.
- With a limit of zero or less, "banned exactly when the failure count has reached
  the limit" fails for addresses without failures: `BannedIffCountReached`.

## Model

| member | source | states |
|---|---|---|
| Filter.SplitPath | src/topic/filter.cpp:7-15 | the getline loop yields the segments, with no segment after a trailing `/` |
| Filter.JoinSplitExactly | src/topic/filter.cpp:7-15 | joining the segments gives the path back exactly for canonical paths and the empty one |
| Filter.SplitInjective | src/topic/filter.cpp:7-15 | canonical paths with equal segments are equal |
| Filter.SplitJoin | src/topic/filter.cpp:7-15 | splitting undoes joining of non-empty segments without `/` |
| Filter.MatchesTopic | src/topic/filter.cpp:17-44 | the two-index loop decides the recursive matching relation |
| Filter.MatchesVersusSpec | src/topic/filter.cpp:17-44 | it is the relation of sections 4.7.1.2 and 4.7.1.3 of MQTT 3.1.1 except precisely on the parent level of a final `#` |
| Filter.IsValidTopic | src/topic/filter.cpp:46-60 | true exactly when within limits and no level is empty, `+` or `#` |
| Filter.IsValidFilter | src/topic/filter.cpp:62-87 | true exactly when within limits, levels non-empty, wildcards alone in their level and `#` last, despite the early return |
| Filter.ValidTopicRejoins | src/topic/topic_tree.cpp:157-168 | the name rebuilt for a valid topic is the topic exactly when it is canonical, and always has its segments |
| TrieSpec.TrieMatchesIsSpec | src/topic/topic_tree.cpp:86-95 | on filters with `#` last the trie's relation is the standard's, for every topic |
| TrieSpec.FramesExact | src/topic/topic_tree.cpp:80-105 | the walk visits exactly the stored paths that fit the topic, none twice |
| TrieSpec.OrderExact | src/topic/topic_tree.cpp:69-108 | the walk collects every stored path that matches and no other, each once |
| TrieSpec.WalkIsScan | src/topic/topic_tree.cpp:69-108 | as a multiset the walk returns what scanning all subscribed filters in any order returns |
| TopicTree.TopicTree.constructor | src/topic/topic_tree.h:26 | an empty index |
| TopicTree.TopicTree.EnsureChild | src/topic/topic_tree.cpp:170-179 | follows the link, or adds one new node there; every other path keeps its node, so entries, messages and all other links stay as they were |
| TopicTree.TopicTree.Subscribe | src/topic/topic_tree.cpp:7-40 | only the entries at the filter's path change, by overwriting the live session's entry or appending |
| TopicTree.TopicTree.Unsubscribe | src/topic/topic_tree.cpp:42-67 | only the entries at the filter's path change, by dropping those that lock to the session; a missing path changes nothing |
| TopicTree.TopicTree.CollectSubscribers | src/topic/topic_tree.cpp:181-193 | appends the entries of the node and of its `#` child |
| TopicTree.TopicTree.Lookup | src/topic/topic_tree.cpp:69-108 | the stack loop ends, visits no node twice, and returns the multiset that scanning every filter returns |
| TopicTree.TopicTree.SetRetained | src/topic/topic_tree.cpp:110-134 | refuses exactly when a non-empty message for a topic without one meets a table with max_retained_messages non-empty ones; otherwise only that topic's message changes, the count equals the non-empty messages and stays within the limit, and no subscriber entry changes |
| TopicTree.TopicTree.GetRetained | src/topic/topic_tree.cpp:136-148 | the message stored for the topic's path, if any |
| TopicTree.TopicTree.GetAllRetained | src/topic/topic_tree.cpp:150-168 | lists every stored message, each once, under its rebuilt name, whatever the order of the children |
| TopicTree.StoredAfter | src/topic/topic_tree.cpp:119-130 | how the number of non-empty retained messages changes with one assignment |
| TopicTree.AddEntry | src/topic/topic_tree.cpp:28-39 | the find-and-overwrite-or-append code computes the specified list |
| TopicTree.RemoveEntries | src/topic/topic_tree.cpp:61-66 | the remove-erase code computes the specified list |
| TrieRuns.EntryIsLatest | src/topic/topic_tree.cpp:7-67 | after any run a live session has at most one entry at a path, with the QoS of its last subscribe, exactly when it has not unsubscribed since |
| TrieRuns.LookupAfterRun | src/topic/topic_tree.cpp:7-108 | after any run with valid filters, a lookup finds a live session's entry as often as there are matching filters that it last subscribed to with that QoS, counted from the operations alone |
| TrieRuns.RetainedPathsPlain | src/topic/topic_tree.cpp:110-134 | after any run with valid topics, messages sit only on paths of non-empty literal levels |
| TrieRuns.RetainedIsLatest | src/topic/topic_tree.cpp:110-148 | after any run whose non-empty messages went to at most max_retained_messages paths, the message found on a path is the one retained there last |
| TrieRuns.ListingIsTheTable | src/topic/topic_tree.cpp:136-168 | the listing has one pair per stored message, under distinct names, and `get_retained` finds that message under that name |
| TrieRuns.TopicIsListed | src/topic/topic_tree.cpp:136-168 | a message that `get_retained` finds under a canonical valid topic is listed under exactly that topic |
| TrieRuns.CanonicalSlots | src/topic/filter.cpp:7-15 | canonical topics and filters name different nodes exactly when they differ |
| PacketIds.AllocatePacketId | src/qos/qos2.cpp:11-24 | returns the first free identifier in cyclic order over 1..65535 and advances past it; 0, and no change, exactly when all are taken |
| PacketIds.FreshIds | src/qos/qos2.cpp:11-24 | a new client is given 1, 2, 3 and so on up to 65535, and then nothing |
| PacketIds.ExhaustedIff | src/qos/qos1.cpp:16-19 | the pool is exhausted exactly when 65535 identifiers are in use |
| InFlight.SoundRun | src/qos/qos2.cpp:26-166 | in every run tracked messages have distinct serials, carry their own identifier and never exceed the retry limit |
| InFlight.RetriesAreBounded | src/qos/qos2.cpp:72-166 | in every run a message is published at most 1 + max_retry_count times and released at most that often per PUBREC |
| InFlight.GivesUp | src/qos/qos1.cpp:80-110 | without acknowledgement a message is still tracked exactly as long as its ticks have not passed max_retry_count, whatever else happens |
| InFlight.PubrecRestarts | src/qos/qos2.cpp:80-87 | PUBREC starts that count afresh |
| InFlight.CallsRecorded | src/qos/qos2.cpp:84-87 | the log records exactly the `deliver` calls that a step makes, in order |
| AtMostOnce.AcceptedAtMostOnce | src/qos/qos2.cpp:26-166 | in every run, an in-order receiver of section 4.3.3 of MQTT 3.1.1 passes each message on at most once |
| AtMostOnce.NoReleaseBetween | src/qos/qos2.cpp:124-166 | in every run, no PUBREL lies between two PUBLISHes of one message under its client and identifier |
| ExactlyOnce.AcceptedAre | src/qos/qos2.cpp:72-166 | in every run a client passes on exactly the messages sent under identifiers whose last message had not been forgotten unreleased, each once and in order |
| ExactlyOnce.ExactlyOnceIff | src/qos/qos2.cpp:72-166 | over every run, what is passed on is what was sent, each once and in order, if and only if no message goes out under an identifier whose last message was forgotten before its PUBREL |
| ExactlyOnce.LossWitness | src/qos/qos2.cpp:134-142 | a concrete run in which the second message is lost |
| Retransmission.RetriesRepeat | src/qos/qos2.cpp:144-160 | in every run all PUBLISHes of one message carry the same topic, payload, QoS, retain flag and identifier to the same session, at QoS 2 with DUP on all but the first, at QoS 1 unchanged; its PUBRELs name that identifier there |
| ClientTables.EraseOk | src/qos/qos1.cpp:71-77 | the erasing code removes one key, keeps the rest and leaves no empty client entry |
| ClientTables.StepConsistent | src/qos/qos2.cpp:42-166 | a step keeps tables, packets sent and machine in agreement when the table changes and the calls are made as it says |
| ClientTables.InsertShown | src/qos/qos2.cpp:42-61 | storing under a fresh identifier adds one message to what the nested table shows, and pools and tables stay equal |
| FanOut.FannedOutMore | src/qos/qos2.cpp:29-69 | serving one more subscriber extends a fan-out: one packet per live subscriber, a tracked copy skipped only for a client with all identifiers in flight, one step of the machine per packet and no other, so min(65535, before + wanted) messages in flight per client |
| FanOut.SkippedMore | src/qos/qos2.cpp:43-49 | a client whose copy was skipped still has all identifiers in flight at the end of the fan-out |
| FanOut.ServedRightly | src/qos/qos2.cpp:29-68 | each packet sent goes to that subscriber with the published topic and payload, at QoS 0, 1 or the lowest of subscribed, published and 2; it has an identifier exactly when it is tracked |
| FanOut.FannedOutRightly | src/qos/qos2.cpp:29-68 | the same of a whole fan-out, where a live subscriber is passed over only when its client has 65535 messages in flight |
| FanOut.CopiedOne | src/qos/qos2.cpp:42-68 | a tracked copy is one deliver call and one more message in flight for that client only |
| Qos1Handler.Qos1Handler.constructor | src/qos/qos1.cpp:7-9 | nothing in flight |
| Qos1Handler.Qos1Handler.Guarantees | src/qos/qos1.cpp:80-110 | of every handler, whatever it has been through: its outbox is what the log records, with each message at most 1 + max_retry_count times and the very same packet each time |
| Qos1Handler.Qos1Handler.DeliverTracked | src/qos/qos1.cpp:34-58 | one `Copy` step of the machine under a free identifier, or no change exactly on exhaustion; pools, tables and machine stay equal |
| Qos1Handler.Qos1Handler.TakeId | src/qos/qos1.cpp:35-41 | the identifier is the first free one of that client's pool |
| Qos1Handler.Qos1Handler.HandlePuback | src/qos/qos1.cpp:62-78 | the `Remove` step: the message is gone and nothing is sent; unknown clients and identifiers change nothing |
| Qos1Handler.Qos1Handler.RetryMessage | src/qos/qos1.cpp:80-110 | the `Tick` step; exactly the stored packet is sent again when the limit is not reached and the session is connected, and nothing otherwise |
| Qos1Handler.Qos1Handler.Deliver | src/qos/qos1.cpp:27-60 | a fan-out in which every live subscriber gets a tracked QoS 1 copy, whatever QoS it was granted |
| Qos2Handler.PubrecConsistent | src/qos/qos2.cpp:80-87 | after PUBREC, tables, packets sent and machine still agree |
| Qos2Handler.RetryConsistent | src/qos/qos2.cpp:144-160 | after a retry, tables, packets sent and machine still agree, with the packet rebuilt from topic and payload |
| Qos2Handler.Qos2Handler.constructor | src/qos/qos2.cpp:7-9 | nothing in flight |
| Qos2Handler.Qos2Handler.Guarantees | src/qos/qos2.cpp:26-166 | of every handler: its outbox is what the log records; each message is passed on at most once, and exactly once and in order if and only if no stale identifier was reused; sends are bounded and repeat the same content |
| Qos2Handler.Qos2Handler.DeliverTracked | src/qos/qos2.cpp:42-68 | one `Copy` step under a free identifier, or no change exactly on exhaustion |
| Qos2Handler.Qos2Handler.TakeId | src/qos/qos2.cpp:43-49 | the identifier is the first free one of that client's pool |
| Qos2Handler.Qos2Handler.HandlePubrec | src/qos/qos2.cpp:72-88 | the `Pubrec` step; exactly one PUBREL goes out when the message is known and its session connected, and nothing otherwise |
| Qos2Handler.Qos2Handler.HandlePubrel | src/qos/qos2.cpp:90-105 | the `Remove` step |
| Qos2Handler.Qos2Handler.HandlePubcomp | src/qos/qos2.cpp:107-122 | the `Remove` step |
| Qos2Handler.Qos2Handler.RetryMessage | src/qos/qos2.cpp:124-166 | the `Tick` step; below the limit and with a connected session exactly one packet goes out, the stored topic and payload with DUP or a PUBREL by phase, and nothing otherwise |
| Qos2Handler.Qos2Handler.Deliver | src/qos/qos2.cpp:26-70 | a fan-out at the lower of subscribed and published QoS, tracked at QoS 2 |
| DeliveryEngine.DeliverQos0 | src/qos/qos0.cpp:5-17 | one QoS 0 packet per live subscriber and none for others |
| DeliveryEngine.DeliveryEngine.ViaQos0 | src/qos/qos0.cpp:5-17 | looks up the subscribers of all matching filters and hands each live one its packet, in order |
| DeliveryEngine.DeliveryEngine.PublishFromClient | src/core/delivery_engine.cpp:10-22 | the subscribers are those of all matching filters, the handler of that QoS fans out to them, the other handlers do not move |
| DeliveryEngine.DeliveryEngine.StoreIncomingQos2 | src/core/delivery_engine.cpp:40-48 | the nested table goes on to show the history, now with this message |
| DeliveryEngine.DeliveryEngine.CompleteIncomingQos2 | src/core/delivery_engine.cpp:50-77 | succeeds exactly when the history has a message waiting, and then makes one fan-out in which every packet carries its topic and payload at the lower of subscribed and stored QoS |
| DeliveryEngine.DeliveryEngine.ClearClientIncoming | src/core/delivery_engine.cpp:79-82 | forgets that client's waiting messages and no others |
| DeliveryEngine.DeliveryEngine.HandlePubrel | src/session.cpp:546-561 | releases a waiting message with its content, or else removes the outgoing message with that identifier |
| DeliveryEngine.ReleasesTheLast | src/core/delivery_engine.cpp:40-66 | however many PUBLISHes came before, the last one's content waits |
| DeliveryEngine.LastStoredGoesOut | src/core/delivery_engine.cpp:50-77 | what goes out on PUBREL is the topic and payload of the PUBLISH stored last |
| DeliveryEngine.NeedsNewPublish | src/core/delivery_engine.cpp:50-66 | after a PUBREL, or once the client's messages are cleared, nothing waits until a new PUBLISH |
| DeliveryEngine.ReleasedAtMostOnce | src/core/delivery_engine.cpp:40-82 | over any history, releases never exceed stored messages, counting the one still waiting |
| RemainingLength.RoundTripIff | src/utils/buffer.cpp:64-90 | decoding undoes encoding exactly on 0..268435455, in 1 to 4 bytes, whatever follows |
| RemainingLength.EncodeMeans | src/utils/buffer.cpp:64-71 | the encoding is the base-128 field of section 2.2.3 of MQTT 3.1.1, continuation bits and shortest length included |
| RemainingLength.DecodeMeans | src/packet/parser.cpp:45-71 | a length is the value of the field at the front; malformed and incomplete mean that the bytes all go on |
| RemainingLength.DecodeInParser | src/packet/parser.cpp:45-71 | the parser's loop computes the specified decoding |
| RemainingLength.DecodeStable | src/packet/parser.cpp:45-71 | more bytes do not change a decision |
| Buffer.TakeStringBack | src/utils/buffer.cpp:52-62 | a string of at most 65535 bytes comes back whole, a longer one cut to its length modulo 65536 |
| Buffer.Buffer.Write | src/utils/buffer.cpp:13-19 | appends at the write cursor, growing if needed, without touching what was written or the read cursor |
| Buffer.Buffer.WriteRemainingLength | src/utils/buffer.cpp:64-71 | appends the encoding |
| Buffer.Buffer.WriteString | src/utils/buffer.cpp:52-55 | appends the length modulo 65536 and all bytes |
| Buffer.Buffer.Read | src/utils/buffer.cpp:21-27 | takes the next bytes, or fails without moving when there are too few |
| Buffer.Buffer.ReadString | src/utils/buffer.cpp:57-62 | takes a length-prefixed string or reports underflow |
| Buffer.Buffer.ReadRemainingLength | src/utils/buffer.cpp:73-90 | succeeds exactly when the four-byte decoding does, with its value and size; otherwise the error depends on a fifth byte |
| Buffer.Buffer.Skip | src/utils/buffer.cpp:92-97 | moves the read cursor, or fails without moving |
| Framing.FrameStable | src/packet/parser.cpp:73-109 | a packet boundary or error once recognised does not depend on later bytes |
| Framing.FrameMeans | src/packet/parser.cpp:73-109 | what each verdict means for the bytes: type 1 to 14, a length field of at most four bytes, at most max_packet_size, all bytes there |
| Framing.DrainKeepsBytes | src/packet/parser.cpp:101-106 | extracted packets followed by the residue are the bytes given |
| Framing.DrainWhole | src/session.cpp:115-125 | a concatenation of whole packets is cut into exactly those packets |
| Framing.ChunkingIsIrrelevant | src/packet/parser.cpp:21-109 | for every split that fits the buffer, packets, residue and error are those of the whole stream |
| Framing.SplittingsAgree | src/session.cpp:106-131 | two splits of one stream give the same outcome and lose no byte |
| Framing.NeverOverflows | src/packet/parser.cpp:21-30 | with 4096-byte reads and room for max_packet_size + 4100 bytes the overflow error never occurs, and an error-free residue has at most max_packet_size + 4 bytes |
| PacketParser.PacketParser.Feed | src/packet/parser.cpp:21-30 | appends, or records the overflow and appends nothing |
| PacketParser.PacketParser.TryExtract | src/packet/parser.cpp:73-109 | the front packet leaves the buffer whole, or nothing leaves and the specified error is recorded |
| PacketParser.PacketParser.ReadChunk | src/session.cpp:113-125 | feeding and draining computes the specified packets and residue |
| Packets.ReadHeader | src/session.cpp:180-188 | reads the fixed header off the buffer |
| Packets.ParsePublish | src/packet/packets.cpp:38-65 | parses as specified, error cases included |
| Packets.Wrap | src/packet/builder.cpp:75-84 | type, flags, length and body in that order |
| Packets.BuildPublish | src/packet/builder.cpp:26-44 | the specified PUBLISH bytes |
| Packets.BuildAck | src/packet/builder.cpp:46-68 | an acknowledgement carrying the identifier |
| Packets.WrappedComesBack | src/packet/builder.cpp:75-84 | every wrapped packet within the size limit is framed whole and its header decodes to what was put in |
| Packets.AckRoundTrip | src/packet/packets.cpp:92-126 | acknowledgements give their type and identifier back |
| Packets.PublishRoundTripIff | src/packet/builder.cpp:26-44 | building, framing, header decoding and parsing give all fields back, identifier 0 at QoS 0, exactly for topics of at most 65535 bytes and QoS at most 3 |
| Packets.PublishLayout | src/packet/builder.cpp:26-44 | a PUBLISH is, byte by byte, 48 plus its flags, the length field, topic length and topic, identifier if any, payload, as in section 3.3 of MQTT 3.1.1 |
| Packets.AckLayout | src/packet/builder.cpp:46-68 | an acknowledgement is type and flags, 2, and the identifier high byte first |
| Packets.FramedHeader | src/session.cpp:180-188 | for every extracted packet the second decoder succeeds and equals the unread byte count |
| Packets.FramedPublish | src/packet/packets.cpp:38-65 | a framed PUBLISH underflows in a field or takes exactly the unread tail as payload; the too-small error cannot occur |
| DeliveredBytes.PacketBackIff | src/packet/builder.cpp:26-62 | the bytes built for a PUBLISH or PUBREL are framed whole and read back as that packet exactly for topics of at most 65535 bytes, QoS at most 3 and no identifier at QoS 0 |
| DeliveredBytes.PubrelLayout | src/packet/builder.cpp:58-62 | a PUBREL is 0x62, 2 and the identifier |
| DeliveredBytes.FanOutIsRead | src/qos/qos2.cpp:35-66 | every packet of a fan-out, read back from its bytes, carries the published topic and payload with DUP clear |
| SubscribePackets.ParseSubscribe | src/packet/packets.cpp:67-79 | the loop computes the specified filters or error |
| SubscribePackets.ParseUnsubscribe | src/packet/packets.cpp:81-90 | the loop computes the specified names or error |
| SubscribePackets.LaidIsTaken | src/packet/packets.cpp:71-76 | every payload laid out as in section 3.8 of MQTT 3.1.1 is understood, filters in order, two option bits kept |
| SubscribePackets.AcceptedIff | src/packet/packets.cpp:71-76 | a payload is accepted exactly when it is a sequence of filters with nothing left over |
| SubscribePackets.NamesIff | src/packet/packets.cpp:85-88 | an UNSUBSCRIBE payload yields exactly the names laid out in it |
| Subscriptions.SubscriptionManager.Add | src/subscription.cpp:5-15 | overwrites the client's entry for that filter or appends one; other clients unchanged |
| Subscriptions.SubscriptionManager.Remove | src/subscription.cpp:17-28 | drops the client's entries for that filter and an empty list altogether |
| Subscriptions.SubscriptionManager.RemoveClient | src/subscription.cpp:30-33 | forgets one client |
| Subscriptions.SubscriptionManager.GetClientSubs | src/subscription.cpp:35-40 | the client's list, or the empty one |
| Agreement.SubscribeKeepsIff | src/session.cpp:462-469 | subscribing keeps stored list and index entries equal if and only if no other stored filter has the same segments |
| Agreement.UnsubscribeKeepsIff | src/session.cpp:501-506 | the same for unsubscribing |
| Agreement.AliasWitness | src/subscription.cpp:8-9 | subscribing to `a` and `a/` breaks it |
| Agreement.OthersUndisturbed | src/topic/topic_tree.cpp:28-39 | one session's operations leave another session's agreement alone |
| Agreement.RestoreAgrees | src/session.cpp:341-352 | restoring a list for a session without entries establishes it |
| SubscriptionRuns.StoreAndIndexAgree | src/session.cpp:341-355 | over every interleaving of sessions with canonical filters, each connected persistent session's list and index entries agree, filters are distinct and within max_subscriptions_per_client |
| SessionHandlers.SubscribesInStep | src/session.cpp:439-483 | a SUBSCRIBE of several canonical filters keeps a session in step and other clients' lists alone, whichever filters it refuses |
| SessionHandlers.UnsubscribesInStep | src/session.cpp:501-506 | the same for UNSUBSCRIBE |
| SessionHandlers.HandlerIsStep | src/session.cpp:452-469 | an accepted filter is the subscribe step of the whole system |
| SessionHandlers.OthersAreSteps | src/session.cpp:341-355 | UNSUBSCRIBE of one filter, restoring and a clean CONNECT are steps of the whole system too |
| SessionHandlers.CodesMean | src/session.cpp:452-472 | the code of a filter is 128 exactly if it is invalid, not permitted or one too many of a persistent session, else the QoS asked for |
| SessionHandlers.SubscribesEntries | src/session.cpp:452-472 | after a SUBSCRIBE, of a clean session too, the session's entry at a path is the one granted last there, or what it was if none was granted; other sessions' entries are untouched |
| SessionHandlers.UnsubscribesEntries | src/session.cpp:501-506 | after an UNSUBSCRIBE, of a clean session too, the session has no entry at the paths named and everything else is as it was |
| SessionHandlers.Session.Restore | src/session.cpp:341-352 | subscribes to the stored list in order; session present exactly when it is not empty |
| SessionHandlers.Session.HandleSubscribe | src/session.cpp:439-472 | index, store and return codes after all filters, refusals included |
| SessionHandlers.Session.HandleUnsubscribe | src/session.cpp:501-506 | index and store after all filters |
| SessionHandlers.Session.ReplayRetained | src/session.cpp:474-482 | sends every retained message whose name matches, each once |
| SessionHandlers.ReplayVersusPublication | src/session.cpp:474-482 | a retained message is replayed exactly when a publication would be routed, except on the parent level of a final `#` |
| WriteQueue.QueueIsFaithful | src/session.cpp:63-80 | over every interleaving, reconnects included, written followed by queued are the accepted packets in order, at most one write is outstanding and is the front, and the length is bounded |
| WriteQueue.EventMeans | src/session.cpp:63-80 | after any run, a delivery that meets a connected session with room is queued last, any other is not taken in and one that meets a full queue closes; a completion takes the front out and goes on |
| WriteQueue.NothingElseIsLost | src/session.cpp:63-80 | in every run, written followed by queued are exactly the packets that met a connected session with room, in order |
| WriteQueue.AllAreKept | src/session.cpp:63-80 | if every delivery meets a connected session with room, these are all delivered packets |
| WriteQueue.BrokenIff | src/session.cpp:152-161 | packets are left behind with no write outstanding exactly after a failed write, or a completion on a closed session with more queued |
| WriteQueue.MovingIff | src/session.cpp:63-80 | over every interleaving, a connected queue with packets has a write outstanding if and only if no such break has happened before in the run |
| WriteQueue.OnceConnectedMoves | src/session.cpp:247-251 | a session that connects at most once, whatever it delivers or closes before, never stands still |
| WriteQueue.StuckForever | src/session.cpp:74-78 | once packets are left behind nothing is ever written again |
| WriteQueue.StuckWitness | src/session.cpp:339 | a concrete run that gets there: connect, deliver, failed write, connect |
| WriteQueue.WriteQueue.SetConnected | src/session.cpp:339 | the connect step, whatever the queue holds |
| WriteQueue.WriteQueue.Deliver | src/session.cpp:63-80 | the deliver step, closing on overflow |
| WriteQueue.WriteQueue.OnWritten | src/session.cpp:152-161 | the completion step: pop and write on, or close |
| WriteQueue.WriteQueue.DoWrite | src/session.cpp:142-174 | starts a write of the front when connected and non-empty |
| AuthLimit.BanIffLimitRun | src/session.cpp:289-314 | in every run a ban entry exists exactly when counted failures have reached the limit |
| AuthLimit.BannedIffCountReached | src/session.cpp:293-298 | with 0 for unknown addresses this holds exactly when the limit is at least 1 or the address has failures |
| AuthLimit.BannedChecksAreRefused | src/session.cpp:227-245 | under a monotone clock every check before the ban ends is refused unless a CONNECT of the address succeeds in between |
| AuthLimit.ClearedAddress | src/session.cpp:227-245 | after a success, or a check at or after the ban's end, the count is 0 and the next check is admitted |
| AuthLimit.BanLasts | src/session.cpp:289-302 | the next check after the failure that bans is refused if and only if it comes before the ban time is over |
| AuthLimit.FailuresAdd | src/session.cpp:289-302 | from a clean address on, the count is the number of failures, and the ban entry exists from the one that reaches the limit |
| AuthLimit.AuthLimiter.CheckRateLimit | src/session.cpp:227-245 | refuses while banned, otherwise clears an elapsed ban and the count |
| AuthLimit.AuthLimiter.RecordFailure | src/session.cpp:289-302 | counts, and bans from now on at the limit |
| AuthLimit.AuthLimiter.RecordSuccess | src/session.cpp:311-314 | clears count and ban |
| AclCache.AnswerMeans | src/auth/pg_authenticator.cpp:156-169 | access is granted exactly when a matching rule reaches the required level, at the highest matching level |
| AclCache.RowsDecide | src/auth/pg_authenticator.cpp:104-136 | against the database: access exactly when some row read matches and its level, cut to eight bits, suffices |
| AclCache.FoldRules | src/auth/pg_authenticator.cpp:156-169 | the loop computes that answer |
| AclCache.AclCache.LoadAclRules | src/auth/pg_authenticator.cpp:104-136 | keeps the rows read; only a complete load gets an expiry |
| AclCache.AclCache.CheckAcl | src/auth/pg_authenticator.cpp:138-170 | every answer folds one load of that user's rules; an earlier load is used exactly when the cached one has not expired, which needs it complete and younger than the time to live; a new one is cached |

## Left out

- Sockets, TLS, acceptor, signals and threads: input and output over Boost.Asio.
- Timers: a tick is a step that may come at any time; scheduling is not modelled.
- Strand scheduling: ordering claims are about `deliver` calls and about the queue, not about wire bytes of concurrent senders.
- Client-id takeover, connection counting and close: the code takes a mutex it already holds, or returns before its clean-up, so there is no conservation law to prove.
- CONNECT parsing, CONNACK, SUBACK, UNSUBACK, PINGRESP: further straight-line members of the same kind as those modelled.
- `handle_publish` as a whole: its access check, validation, retained store and QoS routing are modelled one by one.
- Will messages, admin endpoint, mDNS, logger, message counters: not part of delivery.
- SQL, the connection pool, password hashing: a query is a parameter that is complete, partial or absent.
- Qos2Handler.Qos2Handler.Deliver: proved without steps of others between its rounds; interleavings are covered by the theorems on the machine, whose steps its rounds are. The same holds for the QoS 1 handler.
- TopicTree.TopicTree.Lookup: the order of the result is not part of the statement, since nothing relies on it.
- SubscriptionRuns.StoreAndIndexAgree: a persistent session connects once, alone under its client id, and uses canonical filters; `SubscribeKeepsIff` and `UnsubscribeKeepsIff` say what other filters do.
- AclCache.AclCache.CheckAcl: requires a clock that does not read before its epoch, since that is the expiry of a failed load.
- Packets.ParsePublish: a payload length beyond the buffer is an error; the code copies past the end before it throws. `FramedPublish` shows that this cannot happen for packets from the parser.
- RemainingLength.Read: the value computed from a fifth byte, which overflows an `int` before the error is thrown, is not modelled.
