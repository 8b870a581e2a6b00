# Verification of the rsmqtt broker

A Dafny model of the four parts of the broker that hold its hard properties, each proved against a
simpler thing it stands for. `dafny verify dfyconfig.toml` checks it all.

**Trie** (`FilterUtil`, `TreeSpec`, `TreeShape`, `TreeMatch`, `TrieSpec`, `TrieMatching`, `TrieRuns`,
`RetainedBytes`, `TextTables`, `TrieNode`, `Trie`). `TrieNode.Node` and `Trie.Trie` are classes that change in place, with the
recursion, pruning and counters of the source, proved against functions on a value tree. The trees
are proved to show two flat tables: items by (share group, filter, client) and retained messages by
topic. Over every run, matching finds exactly what the tables say, each client once; the tree is
canonical, so equal tables mean equal trees; the counters are the sizes of the tables. The walk of a
topic over filters and that of a filter over topics are compared filter by filter. `TextTables` says all
of it again of the texts that clients send, with matching level by level on their bytes.

**Session store** (`Messages`, `StoreSpec`, `Storage`, `StoreIndexes`, `StoreRuns`, `FanOut`,
`Delivery`, `Wills`, `Ordering`).
`Storage.Storage` holds `Session` objects, the two deadline sets and the trie. Over every run in which
connections and disconnections of a client alternate, the deadline sets are exact indexes, every
subscriber has a session, every will left behind is sent once, called off or pending, and none is lost
to the expiry of its session. A delivery is proved message by message down to what each copy carries,
and for connections that deliver at once: every interleaving of their steps keeps each one's order.
`Wills` follows a will from the CONNECT that brought it into the queues of its subscribers.

**Connection** (`PacketIds`, `ConnSpec`, `Connection`, `ConnRuns`, `Qos2Runs`, `Outbound`,
`Inbound`). `Connection.Connection` has the
handlers of both handshakes; runs over all inputs, with other connections adding to the queue in
between, keep ledgers of QoS 2 messages, of quota and of the queue, and the window of identifiers. Which
message a PUBREL fans out is followed message by message. `Inbound` and `Outbound` say, from the packets
exchanged so far, exactly what comes of each packet, which message it carries, and what is in flight.

**Codec** (`Wire`, `Buffers`, `Properties`, `UserProperties`, `PublishSpec`, `PublishPacket`,
`SubscribeSpec`, `SubscribePacket`, `WireFormat`, `FramerSpec`, `Codec`). Readers and writers are classes over a
buffer; PUBLISH and SUBSCRIBE encode and decode at both protocol levels. The decoder is a three-state
machine over pieces of a stream that can be interrupted at every read; what it yields is proved to be
the parse of the whole stream. Round trips are stated with the exact condition under which they hold.

Functions that a method and its contract share are pinned down by theorems that do not name them: on the
texts of filters and topics, the fields of messages and packets, the bytes of a frame, and what was
exchanged before. `Seqs` has facts about sequences, `Types` and `Utf8` the values shared by all. Proofs that do not need a
definition, such as that of the trie's invariant, hide it from the verifier, which is quicker that way.

Text is a sequence of bytes, time a number of nanoseconds, and each call on the store reads the clock
once. Strings on the wire must be well-formed UTF-8 (RFC 3629).

## Where the code falls short of its promises

Each is kept as the code has it, with a theorem that says exactly when things go well, or that they never
do, and, in module `Shortfalls`, an input on which they do not.

- Live matching of `a/#` misses the topic `a` (section 4.7.1.2 of MQTT 5.0 asks for it); the retained
  walk finds it: `TreeMatch.DualWithHash`; `HashMissesParent`.
- `valid_filter` admits a `#` that is not last. It matches no published topic, and the retained walk
  ignores what follows it: `TreeMatch.MatchesSomethingIff`, `TreeMatch.DualWithHashInside`;
  `HashInsideIsAccepted`, `HashInsideMatchesNothing`.
- Replacing a retained message leaves the byte counter alone. After replacements by larger messages,
  deletions take it below zero, where a `usize` wraps round: `RetainedBytes.BytesDrift`,
  `RetainedBytes.UnderflowIff`; `ReplacementUnderflows`.
- A second disconnection without a connection in between leaves the first deadlines behind:
  `StoreIndexes.DisconnectKeepsIndexesIff`; `SecondDisconnection`.
- A will that asks to be retained is not: `Wills.WillsAreNotRetained`.
- A clean start drops the will that is pending, where the standard has it sent because its session ends
  (section 3.1.2.5 of MQTT 5.0): `cancelled` in `StoreRuns.WillsAccountedFor`, `StoreRuns.ReconnectCancels`;
  `CleanStartDropsWill`.
- The expiry interval counts from the delivery and not from the arrival, so a message that waits, as a
  retained one does, lives longer: `Delivery.CopyLivesIff`; `WaitingIsNotCounted`.
- After a resumption the handshakes of what is in flight are forgotten, and identifiers start at 1 whatever
  is in flight: `Outbound.ResumedPubRecRefused`, `Outbound.ResumedIdsDistinctIff`; `ResumedHandshakeFails`,
  `ResumedIdentifierTwice`.
- A PUBACK gives quota back but sends nothing that is queued: `Outbound.PubAckAnswered`.
- Resuming with more in flight than the client's Receive Maximum makes the quota wrap round:
  `ConnRuns.OpenedOutboundIff`; `ResumptionWraps`.
- A failing PUBREC never gives its quota back, nor does a failing PUBREL: `leaked` and `discarded` in
  `ConnRuns.RunKeeps`; `FailingPubRecLeaks`, `FailingPubRelLeaks`.
- A QoS 2 PUBLISH that is refused because its identifier is in use takes the place of the message that
  was accepted under it, and is fanned out in its stead: `Qos2Runs.ReleasedIsAcceptedIff`,
  `Qos2Runs.AcceptedAccountedForIff`; `RefusedReplacesAccepted`.
- 16383 and 2097151 are declared one byte longer than they are printed, and 268435455 is refused though
  it can be printed: `Wire.DeclaredLengthIff`; `LargestIsRefused`. A PUBLISH with such a subscription
  identifier is cut short, a SUBSCRIBE does not decode, and such a property length stalls the stream:
  `PublishSpec.RoundTripIff`, `SubscribeSpec.RoundTripIff`, `FramerSpec.PublishSurvivesIff`,
  `FramerSpec.SubscribeSurvivesIff`; `PublishOnBoundary`, `SubscribeOnBoundary`, `SectionOnBoundary`.
- A PUBLISH at QoS 0 that holds a packet identifier is printed with it, and no longer decodes to itself:
  the same theorems; `IdentifierAtQos0`.
- A property that comes twice, a protocol error, is taken the second time, whatever the properties:
  `PublishSpec.AddPrinted`; `SecondPropertyCounts`.
- PUBLISH may be as large as the limit, SUBSCRIBE must be smaller: `PublishSpec.LimitIff`,
  `SubscribeSpec.LimitIff`; `AtTheLimit`.
- A call of `encode` that fails leaves what it has printed in the buffer, and the next call sends that
  first: `Codec.Codec.Encode`; `FailedEncodeLeavesAByte`.

## Model

| member | source | states |
|---|---|---|
| `FilterUtil.SplitLevels` | libs/service/src/filter_util.rs:21-33 | no level of a path holds a slash, and joining the levels gives the path back |
| `FilterUtil.SplitJoin` | libs/service/src/filter_util.rs:21-33 | levels without slashes, joined, split into themselves |
| `FilterUtil.SplitInjective` | libs/service/src/filter_util.rs:21-33 | different paths have different levels |
| `FilterUtil.ParseSound` | libs/service/src/filter_util.rs:36-61 | what `parse_filter` accepts is a filter a client can name, and prints as the text it was parsed from |
| `FilterUtil.ParseComplete` | libs/service/src/filter_util.rs:36-61 | every filter a client can name parses back from its text |
| `FilterUtil.ParseExact` | libs/service/src/filter_util.rs:21-61 | exactly which texts are filters, byte by byte: wildcards alone in their level, and a share name without slash and wildcards |
| `Utf8.ValidUtf8Iff` | libs/service/src/client_loop.rs:483-494 | well-formed are exactly the texts that characters encode to by the table of RFC 3629 |
| `TreeSpec.GetInsert` | libs/service/src/trie.rs:64-91 | after a subscription: that filter and client hold the new item, every other key what it held |
| `TreeSpec.GetRemove` | libs/service/src/trie.rs:184-215 | after an unsubscription: that key is gone, every other key as before, pruning included |
| `TreeSpec.GetRemoveAll` | libs/service/src/trie.rs:235-278 | after removing a client: none of its keys anywhere, all of the others as before |
| `TreeSpec.GetSetRetained` | libs/service/src/trie.rs:344-371 | setting or clearing a retained message changes that topic and no other, and no subscription |
| `TreeShape.InsertCanonical` | libs/service/src/trie.rs:64-91 | subscribing keeps the canonical form |
| `TreeShape.RemoveCanonical` | libs/service/src/trie.rs:198-214 | unsubscribing keeps the canonical form: emptied nodes are pruned on the way up |
| `TreeShape.RemoveAllCanonical` | libs/service/src/trie.rs:235-278 | removing a client keeps the canonical form |
| `TreeShape.SetRetainedCanonical` | libs/service/src/trie.rs:344-371 | setting a retained message keeps the canonical form |
| `TreeShape.CanonicalIffLive` | libs/service/src/trie.rs:20-28 | a tree is canonical exactly when every node below the root has live data in its subtree |
| `TreeShape.CanonicalUnique` | libs/service/src/trie.rs:20-28 | two canonical trees with the same contents are the same tree |
| `TreeShape.ClientPathsExact` | libs/service/src/trie.rs:235-278 | the paths counted for a client are exactly those where it is subscribed |
| `TreeShape.RemoveEachAll` | libs/service/src/trie.rs:235-278 | visiting the children in any order removes the client everywhere below and counts each of its subscriptions once |
| `TreeShape.RemoveAllTwice` | libs/service/src/trie.rs:235-278 | taking the client's own entry first changes neither the resulting tree nor the count |
| `TreeMatch.PatternsExact` | libs/service/src/trie.rs:117-134 | the filters the walk of a topic can reach are exactly those that match it: `+` for one level, a final `#` for one or more |
| `TreeMatch.PatternsDistinct` | libs/service/src/trie.rs:117-134 | no filter is reached twice |
| `TreeMatch.WalkItems` | libs/service/src/trie.rs:117-134 | the walk collects for every client the items at exactly the matching filters, in order |
| `TreeMatch.RetainedWalkExact` | libs/service/src/trie.rs:288-331 | the walk of a filter finds exactly the retained topics that match it, `#` for zero or more levels |
| `TreeMatch.ListsEach` | libs/service/src/trie.rs:333-342 | a list made by the walk is as long as there are matching topics and holds their messages and no other |
| `TreeMatch.DualWithoutHash` | libs/service/src/trie.rs:117-134 | without `#` the two directions agree on every filter and topic |
| `TreeMatch.DualWithHash` | libs/service/src/trie.rs:300-331 | with a final `#` they differ by the parent topic alone |
| `TreeMatch.HashInTheMiddle` | libs/service/src/trie.rs:117-134 | a filter with a `#` that is not last matches no published topic |
| `TreeMatch.MatchesSomethingIff` | libs/service/src/trie.rs:117-134 | a filter matches some published topic if and only if it has no `#` before its last level |
| `TreeMatch.RetainedIgnoresRest` | libs/service/src/trie.rs:300-331 | the walk over retained topics ignores what follows the first `#` |
| `TreeMatch.DualWithHashInside` | libs/service/src/trie.rs:300-331 | with a `#` inside, the two directions agree on a topic exactly when neither the part before it nor that part with the `#` matches it live |
| `TrieMatching.MatchedExact` | libs/service/src/trie.rs:136-152 | the matched filters of a client are those subscribed that match the topic, none twice |
| `TrieMatching.CollectedIsMatched` | libs/service/src/trie.rs:136-152 | for a trie that shows the table of subscriptions, what a topic finds is what the table says matches |
| `TrieMatching.ListsShown` | libs/service/src/trie.rs:333-342 | the retained messages listed for a filter are those of the table at matching topics, each once |
| `TextTables.LiveTextExact` | libs/service/src/trie.rs:73-134 | a path matches a topic when published exactly when the texts do, level by level with the bytes `+` and `#` |
| `TextTables.RetainedTextExact` | libs/service/src/trie.rs:288-331 | and when retained |
| `TrieSpec.SubscribeShows` | libs/service/src/trie.rs:93-115 | subscribing on the trees is an insertion in the table keyed by share group, filter and client |
| `TrieSpec.UnsubscribeShows` | libs/service/src/trie.rs:217-233 | unsubscribing on the trees is a removal from the table |
| `TrieSpec.RemoveAllCount` | libs/service/src/trie.rs:235-278 | what the walk of one tree counts is what the table loses |
| `TrieSpec.RemoveRootsShows` | libs/service/src/trie.rs:280-286 | removing a client from all trees removes all of its keys from the table and no other |
| `TrieSpec.SetRetainedShows` | libs/service/src/trie.rs:373-399 | setting a retained message on the main tree is the operation on the table |
| `TrieSpec.PathOfInjective` | libs/service/src/trie.rs:93-115 | different filters have different keys |
| `TrieSpec.ShowsUnique` | libs/service/src/trie.rs:12-49 | the tables a trie shows determine its main tree |
| `TrieSpec.EmptyIffNothing` | libs/service/src/trie.rs:20-28 | the main root is empty exactly when no plain subscription and no retained message is stored |
| `TrieRuns.OrderDoesNotMatter` | libs/service/src/trie.rs:280-286 | the order in which the hash map of roots is visited changes neither trees nor counters |
| `TrieRuns.BytesExactIff` | libs/service/src/trie.rs:373-399 | the byte counter stays exact unless a retained message is replaced by one of another size, and only then drifts |
| `RetainedBytes.BytesDrift` | libs/service/src/trie.rs:386-396 | over every run the byte counter is the bytes retained, less the growth of all messages that were replaced |
| `RetainedBytes.NonNegativeIff` | libs/service/src/trie.rs:386-396 | the counter is not negative if and only if that growth is at most the bytes retained |
| `RetainedBytes.UnderflowIff` | libs/service/src/trie.rs:386-396 | deletions alone can take the counter below zero if and only if that growth is positive |
| `TrieRuns.LookUpsExact` | libs/service/src/trie.rs:93-115 | the previous item and the previous retained message returned are those of the tables |
| `TrieRuns.ApplySound` | libs/service/src/trie.rs:93-399 | every operation keeps: trees show the tables, the two counters are the sizes of the tables |
| `TrieRuns.RunSound` | libs/service/src/trie.rs:93-399 | the same over every run from the empty trie |
| `TrieRuns.RunsAgree` | libs/service/src/trie.rs:12-49 | two runs that reach the same tables have the same main tree and counters |
| `TextTables.RunWritten` | libs/service/src/trie.rs:93-399 | over every run on the texts of filters and topics the tables of the trie are those of the texts |
| `TextTables.MatchesAfterRun` | libs/service/src/trie.rs:136-152 | after any run on texts `matches` has an entry for each client with a plain filter that matches, each item as often as filters with it match |
| `TextTables.RetainedAfterRun` | libs/service/src/trie.rs:333-342 | after any run on texts the retained messages found are those of the topics that match, each once |
| `TrieNode.Node.InternalSubscribe` | libs/service/src/trie.rs:64-91 | inserts in place; the previous item is returned |
| `TrieNode.Node.InternalUnsubscribe` | libs/service/src/trie.rs:184-215 | removes in place and prunes emptied children; the removed item is returned |
| `TrieNode.Node.InternalUnsubscribeAll` | libs/service/src/trie.rs:235-278 | removes a client in place below all children and counts what it removed |
| `TrieNode.Node.InternalSetRetainedMessage` | libs/service/src/trie.rs:344-371 | sets or clears in place and prunes; the previous message is returned |
| `TrieNode.Node.InternalMatches` | libs/service/src/trie.rs:117-134 | gathers the nodes whose filters match, in the order of the walk |
| `TrieNode.Node.InternalMatchesRetainedMessages` | libs/service/src/trie.rs:300-331 | gathers the retained messages of matching topics |
| `TrieNode.Node.InternalMatchesRetainedMessagesAll` | libs/service/src/trie.rs:288-298 | gathers every retained message at and below a node |
| `TrieNode.Node.IsEmpty` | libs/service/src/trie.rs:21-28 | no data, no retained message and no children |
| `Trie.GroupByClient` | libs/service/src/trie.rs:136-152 | groups the items of the nodes found by client: one entry a client, with all of its items |
| `Trie.Trie.Subscribe` | libs/service/src/trie.rs:93-115 | the new state of trees and counters; the previous item |
| `Trie.Trie.Unsubscribe` | libs/service/src/trie.rs:217-233 | the new state; the removed item |
| `Trie.Trie.UnsubscribeAll` | libs/service/src/trie.rs:280-286 | the state without the client, the counter lowered by what was there |
| `Trie.Trie.SetRetainedMessage` | libs/service/src/trie.rs:373-399 | the new state with all three counters; the previous message |
| `Trie.Trie.Matches` | libs/service/src/trie.rs:136-152 | one entry for each client with matching items, holding exactly these |
| `Trie.Trie.MatchesShared` | libs/service/src/trie.rs:154-182 | one member picked in each share group with a match, its items listed under it |
| `Trie.Trie.MatchesRetainedMessages` | libs/service/src/trie.rs:333-342 | the messages the walk of the filter finds |
| `StoreSpec.MaxQosExact` | libs/service/src/storage.rs:59-68 | the quality of service of a copy is one of the items' and none is higher |
| `StoreSpec.IdsExact` | libs/service/src/storage.rs:61-79 | the identifiers of a copy are those of the items, each as often as items have it |
| `StoreSpec.LocalExact` | libs/service/src/storage.rs:137-141 | the items kept are those that are not no-local or whose client is not the sender |
| `StoreSpec.KeyOrder` | libs/service/src/storage.rs:105-120 | the order of deadlines is a strict total order |
| `FanOut.CopyExact` | libs/service/src/storage.rs:46-97 | what a copy has from the message and what from the items; retain only if every item asks for it |
| `FanOut.PlainItemsExact` | libs/service/src/storage.rs:137-147 | the items of the plain copy: exactly the matching subscriptions that may go back to the sender |
| `FanOut.SharedItemsExact` | libs/service/src/storage.rs:149-154 | the items of the shared copy: those of the groups that picked the client |
| `FanOut.PlainIdsExact` | libs/service/src/storage.rs:61-79 | each identifier comes in the plain copy as often as the client has matching subscriptions with it that may go back to the sender |
| `FanOut.SharedIdsExact` | libs/service/src/storage.rs:61-79 | each identifier comes in the shared copy as often as the groups that picked the client hold matching subscriptions with it |
| `FanOut.DeliverOneExact` | libs/service/src/storage.rs:131-157 | one message adds at most one plain and one shared copy to each session and changes nothing else |
| `FanOut.ExpiredIsDropped` | libs/service/src/storage.rs:133-135 | an expired message changes nothing |
| `FanOut.OneMemberPerGroup` | libs/service/src/trie.rs:154-182 | each share group with a match contributes exactly one of its matching members, the others none |
| `StoreIndexes.SweepWillsExact` | libs/service/src/storage.rs:281-311 | the sweep over the wills collects one will for each session whose will is due, and no other |
| `StoreIndexes.WillsInOrder` | libs/service/src/storage.rs:281-311 | wills are collected in the order of their deadlines |
| `StoreIndexes.SweepRemovalsExact` | libs/service/src/storage.rs:313-325 | the sweep over sessions removes exactly the expired ones from table, deadlines and trie |
| `StoreIndexes.NoWillLost` | libs/service/src/storage.rs:254-278 | a session that expires with a will has it collected first |
| `StoreIndexes.LiveIsSpared` | libs/service/src/storage.rs:281-326 | a connected client keeps session and will through every sweep |
| `StoreIndexes.SweptIsCurrent` | libs/service/src/storage.rs:281-326 | after a sweep no deadline is past; the counter grew by the number removed |
| `StoreIndexes.DisconnectKeepsIndexesIff` | libs/service/src/storage.rs:240-279 | a disconnection keeps the deadline sets exact if and only if the client was connected or the new deadlines are the old |
| `StoreRuns.StepConsistent` | libs/service/src/storage.rs:190-384 | every event keeps: deadline sets index the sessions, trie shows the subscriptions, every subscriber has a session, every will is accounted for |
| `StoreRuns.RunConsistent` | libs/service/src/storage.rs:190-384 | the same in every state of every run |
| `StoreRuns.NoWillWhileConnected` | libs/service/src/storage.rs:199-218 | while a client stays connected no will of it is sent |
| `StoreRuns.ReconnectCancels` | libs/service/src/storage.rs:199-218 | a connection before the deadline calls the pending will off |
| `StoreRuns.WillsAccountedFor` | libs/service/src/storage.rs:240-311 | over every run each disconnection from a connection that was opened with a will had that will sent once, called off, or has it pending |
| `Storage.Session.AddMessage` | libs/service/src/storage.rs:46-97 | appends the copy for the items, or nothing when there are none |
| `Storage.Session.NextMessages` | libs/service/src/storage.rs:386-403 | takes the first messages, at most so many, in order |
| `Storage.Session.AddInflight` | libs/service/src/storage.rs:410-414 | appends to the packets in flight |
| `Storage.Session.GetInflight` | libs/service/src/storage.rs:416-443 | gives the oldest packet in flight if it has the identifier, and takes it off on request |
| `Storage.Storage.Deliver` | libs/service/src/storage.rs:131-157 | adds to each queue what every message fans out to it |
| `Storage.Storage.UpdateRetainedMessage` | libs/service/src/storage.rs:180-188 | sets the retained message, or clears it for an empty payload |
| `Storage.Storage.RemoveSession` | libs/service/src/storage.rs:159-171 | removes session, deadlines and subscriptions of a client |
| `Storage.Storage.CreateSession` | libs/service/src/storage.rs:190-238 | resumes the session or makes a new one, as the clean start flag says; tells which |
| `Storage.Storage.DisconnectSession` | libs/service/src/storage.rs:240-279 | sets both deadlines from one instant |
| `Storage.Storage.SweepDueWills` | libs/service/src/storage.rs:283-311 | takes the wills that are due, in order of their deadlines |
| `Storage.Storage.SweepDueRemovals` | libs/service/src/storage.rs:313-325 | removes the sessions that are due |
| `Storage.Storage.UpdateSessions` | libs/service/src/storage.rs:281-326 | both sweeps, then the wills go out |
| `Storage.Storage.Subscribe` | libs/service/src/storage.rs:328-379 | subscribes and, as retain handling says, queues the matching retained messages |
| `Storage.Storage.Unsubscribe` | libs/service/src/storage.rs:381-384 | unsubscribes; whether there was a subscription |
| `Delivery.DeliverExact` | libs/service/src/storage.rs:131-157 | what a list of messages adds to a queue, message by message: nothing if it has run out, else one copy if a plain filter of the client matches that may have it back, one if a share group picked it; each copy made now, with topic, payload and properties of the message |
| `Delivery.PickedText` | libs/service/src/trie.rs:154-182 | a share group picks a member if and only if the text of a filter in it matches, one member, and one that has such a filter |
| `Delivery.CopyLivesIff` | libs/service/src/message.rs:100-106 | a copy lives as long as its message if and only if that has no interval or is delivered at the instant it was made |
| `Delivery.SubscribeSends` | libs/service/src/storage.rs:348-379 | what a subscription queues: a copy of each retained message whose topic the text of the filter matches, that has not run out and may go to the client, once; nothing in a share group or when retain handling says no |
| `Wills.SweepDelivers` | libs/service/src/storage.rs:317-325 | the messages a sweep delivers are the wills it collected, field by field |
| `Wills.DueWillArrives` | libs/service/src/storage.rs:281-326 | a will that is due reaches every session that stays and whose text filters match its topic |
| `Wills.OnlyDueWillsArrive` | libs/service/src/storage.rs:281-326 | whatever a sweep adds to a queue is a copy of a will that was due |
| `Wills.WillsAreNotRetained` | libs/service/src/storage.rs:317-325 | no sweep changes what is retained, whatever the wills ask for |
| `Wills.WillIsSentIff` | libs/service/src/storage.rs:190-326 | over every run: the will given at CONNECT is sent by a sweep after the disconnection if and only if the lesser of its delay and the session expiry has passed, and no other of that client |
| `Wills.ResumesWhatItLeft` | libs/service/src/storage.rs:199-218 | over every run: a client back before its session expires is told so, and finds queue and packets in flight as it left them, and behind them what came since |
| `Wills.StartsWithNothing` | libs/service/src/storage.rs:219-234 | a clean start, or no session: nothing queued, in flight or subscribed, and the will of this CONNECT |
| `Ordering.RunKeepsOrder` | libs/service/src/storage.rs:94-95 | for every interleaving of pushes and drains, what a session got from one connection is what its steps pushed, in order |
| `Ordering.StepsAreFanOut` | libs/service/src/storage.rs:131-157 | the steps of a delivery add up to its fan-out in whatever order the hash maps are walked |
| `Ordering.DeliveryOrder` | libs/service/src/storage.rs:131-157 | for every interleaving, each session gets from each connection what its deliveries fan out, in delivery order; a prefix of it while deliveries go on |
| `Ordering.AloneIsDeliver` | libs/service/src/storage.rs:405-408 | made alone, the same deliveries put into each queue what `deliver` puts there |
| `PacketIds.PacketIdAllocator.Take` | libs/codec/src/packet_id_allocator.rs:15-23 | hands out the next identifier; 1 follows 65535 |
| `PacketIds.PacketIdAllocator.Reset` | libs/codec/src/packet_id_allocator.rs:26-28 | starts again at 1 |
| `PacketIds.WindowTaken` | libs/codec/src/packet_id_allocator.rs:15-23 | taking an identifier extends the run of identifiers that ends just before the next |
| `PacketIds.WindowReleased` | libs/service/src/storage.rs:416-443 | releasing at the front shortens it |
| `PacketIds.WindowDistinctIff` | libs/codec/src/packet_id_allocator.rs:15-23 | the identifiers of the run differ from one another exactly when there are at most 65535 |
| `Connection.Connection.HandleConnect` | libs/service/src/client_loop.rs:352-392 | quotas from the maxima; what is in flight is sent again and taken off the quota |
| `Connection.Connection.HandlePublish` | libs/service/src/client_loop.rs:420-606 | the checks in order, alias and topic, then the message is accepted, held or refused |
| `Connection.Connection.HandlePubAck` | libs/service/src/client_loop.rs:608-638 | releases the oldest packet if it has the identifier |
| `Connection.Connection.HandlePubRec` | libs/service/src/client_loop.rs:640-707 | moves a QoS 2 packet on, or on failure drops it without giving back its quota |
| `Connection.Connection.HandlePubRel` | libs/service/src/client_loop.rs:709-748 | fans out the held message on success, discards it on failure |
| `Connection.Connection.HandlePubComp` | libs/service/src/client_loop.rs:750-795 | completes a QoS 2 packet and drains the queue |
| `Connection.Connection.HandleNotified` | libs/service/src/client_loop.rs:949-970 | drains at most the quota from the queue, skipping expired messages |
| `Connection.Connection.DeliveMessage` | libs/service/src/client_loop.rs:972-1024 | sends one message: identifier, quota and in-flight queue for QoS 1 and 2 |
| `ConnRuns.StepKeeps` | libs/service/src/client_loop.rs:420-1024 | every input keeps the inbound, outbound and queue ledgers in balance and the identifiers in one run |
| `ConnRuns.RunKeeps` | libs/service/src/client_loop.rs:420-1024 | over every run: as many accepted as fanned out, discarded and held, under each identifier; quota + in flight + leaked = maximum; enqueued = handled, in order, + queued, and sent = handled without the expired |
| `ConnRuns.OpenedOutboundIff` | libs/service/src/client_loop.rs:352-392 | the outbound ledger balances at the start exactly when no more is in flight than the client allows |
| `ConnRuns.OpenedOk` | libs/service/src/client_loop.rs:352-392 | and then every ledger does |
| `ConnRuns.Qos2AtReleaseOnly` | libs/service/src/client_loop.rs:565-602 | a QoS 2 message is fanned out at a PUBREL of the identifier it is held under and at no other step, and held no more after it |
| `Qos2Runs.StoredExact` | libs/service/src/client_loop.rs:565-602 | exactly which message each input puts under an identifier or lets go, and when the answer is success |
| `Qos2Runs.RunBalanced` | libs/service/src/client_loop.rs:565-748 | over every run each message put under an identifier, accepted or refused, was fanned out, discarded, replaced or is still there |
| `Qos2Runs.AcceptedAccountedForIff` | libs/service/src/client_loop.rs:565-748 | each accepted message was fanned out, discarded or is held, if and only if each refused one was the same as the one it replaced |
| `Qos2Runs.ReleasedIsAcceptedIff` | libs/service/src/client_loop.rs:574-590 | the message fanned out at a PUBREL is the one that was accepted, if and only if no other came under its identifier in between or the last that did was the same |
| `Qos2Runs.NoneStored` | libs/service/src/client_loop.rs:574-590 | none came when no QoS 2 PUBLISH had that identifier |
| `ConnRuns.NotifiedKeeps` | libs/service/src/client_loop.rs:949-970 | a drain takes the oldest messages, never more than the quota |
| `ConnRuns.IdentifiersInFlight` | libs/service/src/client_loop.rs:1001-1021 | over every run from an empty in-flight queue the identifiers in flight are the last handed out, distinct exactly when at most 65535: always under a Receive Maximum |
| `Inbound.AcceptableIff` | libs/service/src/client_loop.rs:438-494 | the checks pass exactly for a PUBLISH of this form, said by its fields and bytes |
| `Inbound.RefusedFor` | libs/service/src/client_loop.rs:438-494 | the reason given, by the first thing that is wrong |
| `Inbound.RunAliases` | libs/service/src/client_loop.rs:496-517 | over every run an alias stands for the topic it was last given |
| `Inbound.PublishAnswered` | libs/service/src/client_loop.rs:420-606 | exactly what comes of a PUBLISH after any run: its message, field by field, is retained, fanned out, acknowledged or recorded; or nothing, and a disconnection |
| `Inbound.PubRelAnswered` | libs/service/src/client_loop.rs:709-748 | exactly what comes of a PUBREL after any run: the message that waits is fanned out, and the PUBCOMP says whether there was one |
| `Inbound.StoredIsMessage` | libs/service/src/client_loop.rs:565-602 | what is put under an identifier at QoS 2 is the message of the packet |
| `Inbound.RunSeen` | libs/service/src/client_loop.rs:534-563 | over every run: messages fanned out at QoS 0 and 1 are those received, in order; acknowledged those at QoS 1; retained those that ask for it |
| `Outbound.SentAs` | libs/service/src/message.rs:143-174 | a message that has not run out is sent as this packet, field by field, with the seconds that are left |
| `Outbound.RunCarries` | libs/service/src/client_loop.rs:949-1024 | over every run the packets sent are those of the messages that left the queue, in order, without those that had run out |
| `Outbound.DeliveSends` | libs/service/src/client_loop.rs:999-1021 | the packet sent at QoS 1 and 2 has the next identifier and is the one in flight; at QoS 0 it has none |
| `Outbound.DrainExact` | libs/service/src/client_loop.rs:949-970 | a drain takes as many messages as the quota allows |
| `Outbound.RunInFlight` | libs/service/src/client_loop.rs:608-1024 | over every run: in flight at the start and sent = released and in flight, in order, with identifiers one after the other |
| `Outbound.StepExact` | libs/service/src/client_loop.rs:608-795 | which acknowledgement releases the oldest packet in flight, and how handshakes advance |
| `Outbound.RunReached` | libs/service/src/client_loop.rs:640-795 | over every run the state of a handshake is what was exchanged under its identifier |
| `Outbound.PubRecAnswered` | libs/service/src/client_loop.rs:640-707 | a PUBREC is refused unless a PUBLISH was last; otherwise the PUBREL says whether the packet is the oldest in flight |
| `Outbound.PubCompAnswered` | libs/service/src/client_loop.rs:750-795 | a PUBCOMP is refused unless a PUBREC came before it; one that releases a packet drains the queue |
| `Outbound.PubAckAnswered` | libs/service/src/client_loop.rs:608-638 | a PUBACK is refused unless it is for the oldest packet in flight; nothing is drained |
| `Outbound.ResentExact` | libs/service/src/client_loop.rs:376-392 | what is in flight is sent again as it was, marked as a duplicate |
| `Outbound.OpenExact` | libs/service/src/client_loop.rs:352-392 | a connection starts with the quotas agreed, the queue and packets of the session, and no alias, handshake or held message |
| `Outbound.ResumedPubRecRefused` | libs/service/src/client_loop.rs:1054-1055 | a PUBREC for a packet of an earlier connection is refused as long as this one has sent nothing under its identifier |
| `Outbound.ResumedIdsDistinctIff` | libs/service/src/client_loop.rs:1054-1055 | after a resumption the identifiers in flight differ exactly when fewer packets were sent than any old one has for an identifier |
| `Wire.VarIntRoundTrip` | libs/codec/src/writer.rs:17-35 | printing and reading a variable-byte integer are inverse exactly on 0 to 268435455, whatever follows |
| `Wire.VarIntForm` | libs/codec/src/reader.rs:16-32 | whatever is read came from one to four bytes off the front, is in range, and prints no longer; the printed form is the only shortest |
| `Wire.DeclaredLengthIff` | libs/codec/src/writer.rs:70-82 | the declared length is the printed one exactly below 268435455 and off 16383 and 2097151 |
| `Wire.RemainingLengthStable` | libs/codec/src/codec.rs:117-139 | once the look ahead has an answer, later bytes do not change it |
| `Wire.RemainingLengthWithin` | libs/codec/src/codec.rs:117-139 | the look ahead gives what the reader reads and the bytes it takes |
| `Wire.BinaryRoundTrip` | libs/codec/src/reader.rs:61-77 | strings and binary data read back whatever follows; a string exactly if it is UTF-8 |
| `Wire.U32RoundTrip` | libs/codec/src/reader.rs:54-58 | a 32-bit integer reads back whatever follows |
| `Buffers.BytesMut.WriteRemainingLength` | libs/codec/src/writer.rs:17-35 | appends the printed integer, or refuses it above the largest |
| `Buffers.BytesMut.WriteString` | libs/codec/src/writer.rs:37-46 | appends length and bytes, or refuses more than 65535 |
| `Buffers.Bytes.ReadRemainingLength` | libs/codec/src/reader.rs:16-32 | consumes the integer that the parser reads, or the bytes it looked at before it failed |
| `Buffers.Bytes.ReadString` | libs/codec/src/reader.rs:60-68 | consumes the string that the parser reads, or the bytes it looked at before it failed |
| `Buffers.Bytes.ReadBinary` | libs/codec/src/reader.rs:70-77 | consumes the data that the parser reads, or the bytes it looked at before it failed |
| `Buffers.GetRemainingLength` | libs/codec/src/codec.rs:117-139 | the loop answers as the reader would: an integer and its size, nothing yet, or malformed |
| `Properties.PropertyRoundTrip` | libs/codec/src/publish.rs:52-136 | every kind of property reads back from its print, whatever follows |
| `Properties.ReadFits` | libs/codec/src/publish.rs:97-136 | every property that is read can be printed again |
| `Properties.DeclaredIsActual` | libs/codec/src/publish.rs:28-50 | the declared length of properties exceeds the printed one by one byte for each identifier on a boundary |
| `PublishSpec.PropertiesRoundTrip` | libs/codec/src/publish.rs:52-141 | a printed property section decodes to the properties, subscription identifiers sorted |
| `PublishSpec.SortExact` | libs/codec/src/publish.rs:138-138 | sorting keeps the identifiers and their number and puts them in order |
| `PublishSpec.DeclaredSizeIsActual` | libs/codec/src/publish.rs:205-218 | by how much the declared size is off, exactly |
| `PublishSpec.LimitIff` | libs/codec/src/publish.rs:226-248 | a packet is encoded exactly when its size is at most the limit |
| `PublishSpec.RoundTripIff` | libs/codec/src/publish.rs:160-263 | decoding what was encoded gives the packet back, identifiers sorted, if and only if its identifier goes with its QoS and no subscription identifier lies on a boundary (level 4: it has no properties) |
| `PublishSpec.DecodedForm` | libs/codec/src/publish.rs:160-203 | whatever decodes is well formed, in canonical order, and printable part by part |
| `PublishSpec.ForwardedIff` | libs/codec/src/publish.rs:160-263 | a packet received and sent on unchanged arrives unchanged exactly when no subscription identifier lies on a boundary |
| `PublishPacket.BytesLength` | libs/codec/src/publish.rs:28-50 | the sum of the declared lengths of all properties, or refused |
| `PublishPacket.EncodeProperties` | libs/codec/src/publish.rs:52-95 | appends all properties in order, or those before the first that does not fit and the front of that |
| `PublishPacket.DecodePublishProperties` | libs/codec/src/publish.rs:97-140 | the loop reads properties to the end of the section, then sorts the identifiers |
| `PublishPacket.EncodePublish` | libs/codec/src/publish.rs:220-263 | appends the packet; or gives the error of the first check that fails and leaves what was printed by then |
| `PublishPacket.DecodePublish` | libs/codec/src/publish.rs:160-203 | the packet the bytes stand for, or the first error |
| `SubscribeSpec.PropertiesRoundTrip` | libs/codec/src/subscribe.rs:35-74 | a printed section decodes to the properties, whatever tail comes after it |
| `SubscribeSpec.OptionsRoundTrip` | libs/codec/src/subscribe.rs:108-179 | the option bits decode to the options; at level 4 to the QoS and the defaults |
| `SubscribeSpec.FiltersRoundTrip` | libs/codec/src/subscribe.rs:261-265 | a printed list of filters decodes to the list |
| `SubscribeSpec.DeclaredSizeIsActual` | libs/codec/src/subscribe.rs:190-209 | by how much the declared size is off, exactly |
| `SubscribeSpec.LimitIff` | libs/codec/src/subscribe.rs:217-221 | of the packets within the limit, those as large as it and no others are refused |
| `SubscribeSpec.RoundTripIff` | libs/codec/src/subscribe.rs:211-272 | decoding what was encoded gives the packet back if and only if its subscription identifier is off the boundaries (level 4: no properties, plain filters) |
| `SubscribeSpec.RoundTripAtV5` | libs/codec/src/subscribe.rs:211-272 | with the identifier on a boundary the packet never decodes |
| `SubscribePacket.EncodeSubscribe` | libs/codec/src/subscribe.rs:211-234 | appends the packet; or gives the error of the first check that fails and leaves what was printed by then |
| `SubscribePacket.DecodeSubscribe` | libs/codec/src/subscribe.rs:236-272 | the packet the bytes stand for, or the first error |
| `SubscribePacket.ReadFilter` | libs/codec/src/subscribe.rs:109-158 | consumes one filter and its options, or the bytes it looked at before it failed |
| `FramerSpec.PublishSurvivesIff` | libs/codec/src/codec.rs:57-102 | a PUBLISH alone in a stream is all the stream parses to, if and only if its identifier goes with its QoS and neither a subscription identifier nor its property length lies on a boundary (level 4: no properties) |
| `FramerSpec.SubscribeSurvivesIff` | libs/codec/src/codec.rs:57-102 | the same of SUBSCRIBE |
| `FramerSpec.PacketRead` | libs/codec/src/codec.rs:57-102 | a printed packet at the front of a stream is the first parsed, and parsing goes on behind it |
| `FramerSpec.StreamRoundTrip` | libs/codec/src/codec.rs:57-115 | a stream of printed packets, whatever follows, parses to those packets with the sizes announced |
| `Codec.Codec.Decode` | libs/codec/src/codec.rs:57-102 | gives the next packet of the stream and leaves exactly the bytes after it, or says how it ends; stopped at a read, it has lost nothing |
| `Codec.Codec.DecodeAll` | libs/service/src/client_loop.rs:1060-1163 | packets and end are those of the whole stream, the protocol level that of the last CONNECT among them, for every division into reads, every interruption and a limit that may change after each packet |
| `Codec.Codec.Encode` | libs/codec/src/codec.rs:104-114 | sends the printed packet behind what failed calls left in the buffer; a call that fails sends nothing and leaves what it printed |
| `Codec.Codec.SetInputMaxSize` | libs/codec/src/codec.rs:48-50 | sets the limit for packets read |
| `Codec.Codec.SetOutputMaxSize` | libs/codec/src/codec.rs:53-55 | sets the limit for packets sent |
| `FramerSpec.OneLimit` | libs/codec/src/codec.rs:57-102 | with one limit for all packets, the parse with a changing limit is the plain parse |
| `Codec.Reader.Read` | libs/codec/src/codec.rs:88-98 | the next piece of the stream, nothing at its end |
| `FramerSpec.FrameExact` | libs/codec/src/codec.rs:64-87 | a frame comes to too large, cut short, or what its body decodes to, with the bytes behind it left |
| `FramerSpec.EndIff` | libs/codec/src/codec.rs:89-98 | only an empty rest ends a stream well |
| `FramerSpec.ConnectThenPackets` | libs/codec/src/codec.rs:79-87 | packets printed at the level of a CONNECT and sent behind it are read at that level, whatever the level before |
| `WireFormat.VarIntDigits` | libs/codec/src/writer.rs:17-35 | groups of seven bits, the lowest first, all but the last marked |
| `WireFormat.FixedWidth` | libs/codec/src/writer.rs:37-68 | numbers of fixed width have their highest byte first |
| `WireFormat.PropertyNumbers` | libs/codec/src/property.rs:1-23 | the identifier each property is printed with |
| `WireFormat.PropertyTaken` | libs/codec/src/publish.rs:97-136 | each property that is read goes into its field; any byte but 0 is true |
| `WireFormat.IdentifierTaken` | libs/codec/src/subscribe.rs:50-74 | a subscription identifier takes the place of the one before |
| `WireFormat.PublishLayout` | libs/codec/src/publish.rs:220-263 | the bits of the first byte, then size and body |
| `WireFormat.OptionBits` | libs/codec/src/subscribe.rs:160-179 | the bits of the subscription options |
| `WireFormat.PingLayout` | libs/codec/src/packet.rs:46-66 | the bytes of PINGREQ and PINGRESP |
| `WireFormat.TypesRefused` | libs/codec/src/packet.rs:46-66 | the two packet types that are refused, and how |
| `WireFormat.PublishRefused` | libs/codec/src/publish.rs:160-203 | QoS 3 and identifier 0 are refused, and how |
| `WireFormat.PropertyRefused` | libs/codec/src/publish.rs:97-136 | a property PUBLISH does not have, and alias 0 |
| `WireFormat.SubscribeRefused` | libs/codec/src/subscribe.rs:108-158 | wrong flags, identifier 0, wrong options, a property SUBSCRIBE does not have |
| `Shortfalls.HashMissesParent` | libs/service/src/trie.rs:117-134 | "a/#" misses the published topic "a" and finds the retained one |
| `Shortfalls.HashInsideIsAccepted` | libs/service/src/filter_util.rs:21-61 | "a/#/b" is accepted |
| `Shortfalls.HashInsideMatchesNothing` | libs/service/src/trie.rs:117-134 | and matches no published topic, but a retained message of "a" |
| `Shortfalls.ReplacementUnderflows` | libs/service/src/trie.rs:386-396 | one byte replaced by two and then deleted takes the counter to -1 |
| `Shortfalls.SecondDisconnection` | libs/service/src/client_loop.rs:1170-1181 | a second disconnection leaves the deadline of the first behind |
| `Shortfalls.CleanStartDropsWill` | libs/service/src/storage.rs:219-222 | after a clean start the will that was pending is gone and was not sent |
| `Shortfalls.ResumptionWraps` | libs/service/src/client_loop.rs:376-392 | resuming two packets in flight with a Receive Maximum of one wraps the quota round |
| `Shortfalls.FailingPubRecLeaks` | libs/service/src/client_loop.rs:640-707 | after a failing PUBREC nothing is in flight and the quota is still gone |
| `Shortfalls.FailingPubRelLeaks` | libs/service/src/client_loop.rs:709-748 | after a failing PUBREL nothing is held and the quota is still gone |
| `Shortfalls.RefusedReplacesAccepted` | libs/service/src/client_loop.rs:574-590 | a refused PUBLISH takes the place of the accepted one and is fanned out for it |
| `Shortfalls.LargestIsRefused` | libs/codec/src/writer.rs:70-82 | 268435455 is printed and read, but no length is declared for it |
| `Shortfalls.PublishOnBoundary` | libs/codec/src/publish.rs:28-50 | a PUBLISH with subscription identifier 16383 decodes to something else |
| `Shortfalls.SubscribeOnBoundary` | libs/codec/src/subscribe.rs:22-33 | a SUBSCRIBE with it does not decode |
| `Shortfalls.SectionOnBoundary` | libs/codec/src/publish.rs:205-213 | a PUBLISH with 16383 bytes of properties does not come through a stream |
| `Shortfalls.IdentifierAtQos0` | libs/codec/src/publish.rs:252-254 | a PUBLISH at QoS 0 with an identifier decodes to something else |
| `Shortfalls.AtTheLimit` | libs/codec/src/subscribe.rs:220-220 | at the limit PUBLISH is encoded and SUBSCRIBE refused |
| `Shortfalls.WaitingIsNotCounted` | libs/service/src/storage.rs:79-91 | a retained message with 1 of 10 seconds left goes to a new subscriber with 10 |
| `Shortfalls.ResumedHandshakeFails` | libs/service/src/client_loop.rs:651-665 | the PUBREC for a packet sent again ends the connection |
| `Shortfalls.ResumedIdentifierTwice` | libs/service/src/client_loop.rs:1001-1021 | after a resumption two packets in flight have one identifier |
| `Shortfalls.SecondPropertyCounts` | libs/codec/src/publish.rs:97-136 | a property that comes twice is taken the second time |
| `Shortfalls.FailedEncodeLeavesAByte` | libs/codec/src/codec.rs:108-112 | a PUBLISH that is too large leaves its first byte in the buffer |

## Left out

- Connection.Connection.HandleConnect: the part of the handler that sets the quotas and sends again what is in flight; the checks, the session look-up and the CONNACK are not in it.
- Qos2Runs.ReleasedIsAcceptedIff: at protocol level 4 the connection ends when an identifier is in use; runs go on after that, so the theorem covers more than can happen there.
- Trie.Trie.MatchesShared: the random choice of a member is any choice; that it is uniform is not stated.
- Storage.Storage.UpdateSessions: the picks of share groups for the wills are left open in the same way.
- Ordering.DeliveryOrder: what happens under one session's lock is one step; the memory model below that is not modelled.
- The three kinds of child of a trie node are one map keyed by kind, and the main root and the share roots one map keyed by share name.
- Unsigned counters and lengths are unbounded; wrap-round of `usize` is modelled for the connection's quotas only.
- A connection holds its session as an object, where the source looks it up by client identifier at each call.
- Two live connections on one session during a takeover.
- DISCONNECT: `handle_disconnect` clears the connection's own copy of the will alone (libs/service/src/client_loop.rs:930-932), so the store, which has no reason to go by, sends the will after a normal disconnection too.
- CONNECT, the acknowledgement packets, UNSUBSCRIBE and DISCONNECT on the wire: parameters of the framer (`FramerSpec.Others`).
- Access rules, topic rewriting, plugins and limits of the configuration: parameters of the handlers or not modelled.
- The parts of `handle_connect` before the quotas, `handle_subscribe` and keep-alive: checks of configuration and replies.
- Sockets, TLS, WebSocket, HTTP, errors of reads and writes, notification of waiting tasks, metrics and `$SYS` topics, and the client library.
