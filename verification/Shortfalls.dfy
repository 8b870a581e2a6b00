/** Inputs on which the code does not do what it promises, one for each condition that the other
    modules state exactly. */
module Shortfalls {
  import opened Types
  import opened Messages
  import FilterUtil
  import opened TreeSpec
  import opened TreeMatch
  import opened TrieSpec
  import TrieRuns
  import RetainedBytes
  import StoreSpec
  import StoreIndexes
  import ConnSpec
  import ConnRuns
  import Wire
  import Properties
  import P = PublishSpec
  import S = SubscribeSpec
  import FramerSpec
  import Outbound

  const A: Text := [0x61]
  const B: Text := [0x62]
  const HASH: Text := [0x23]

  // ----- filters -----

  /** The levels of a path, from those of what comes after its first slash. */
  lemma Levels(first: Text, rest: Text, levels: seq<Text>)
    requires FilterUtil.SLASH !in first && FilterUtil.Split(rest) == levels
    ensures FilterUtil.Split(first + [FilterUtil.SLASH] + rest) == [first] + levels
  {
    FilterUtil.SplitOfPrefixed(first, rest);
  }

  lemma Accepted(text: Text, levels: seq<Text>)
    requires FilterUtil.Split(text) == levels && text != [] && text[0] != 0x24
    requires forall level <- levels :: |level| == 1
    ensures FilterUtil.ParseFilter(text) == Some(FilterUtil.Filter(None, text))
  {
    FilterUtil.ParseComplete(FilterUtil.Filter(None, text));
  }

  /** "a/#" does not match the published topic "a"; a retained message of that topic it matches. */
  lemma HashMissesParent()
    ensures var text := A + [FilterUtil.SLASH] + HASH;
      && FilterUtil.ParseFilter(text) == Some(FilterUtil.Filter(None, text))
      && PathOf(text) == [Name(A), Hash]
    ensures !LiveMatch([Name(A), Hash], [A]) && RetainedMatch([Name(A), Hash], [A])
  {
    hide FilterUtil.Split, FilterUtil.ParseFilter;
    FilterUtil.SplitOfLevel(HASH);
    Levels(A, HASH, [HASH]);
    assert [A] + [HASH] == [A, HASH];
    Accepted(A + [FilterUtil.SLASH] + HASH, [A, HASH]);
    DualWithHash([Name(A)], [A]);
    assert [Name(A)] + [Hash] == [Name(A), Hash];
    assert LiveMatch([Name(A)], [A]);
  }

  /** "a/#/b" is accepted. */
  lemma HashInsideIsAccepted()
    ensures var text := A + [FilterUtil.SLASH] + (HASH + [FilterUtil.SLASH] + B);
      && FilterUtil.ParseFilter(text) == Some(FilterUtil.Filter(None, text))
      && PathOf(text) == [Name(A), Hash, Name(B)]
  {
    hide FilterUtil.Split, FilterUtil.ParseFilter;
    FilterUtil.SplitOfLevel(B);
    Levels(HASH, B, [B]);
    assert [HASH] + [B] == [HASH, B] && [A] + [HASH, B] == [A, HASH, B];
    Levels(A, HASH + [FilterUtil.SLASH] + B, [HASH, B]);
    Accepted(A + [FilterUtil.SLASH] + (HASH + [FilterUtil.SLASH] + B), [A, HASH, B]);
  }

  /** It matches no published topic, but a retained message of "a". */
  lemma HashInsideMatchesNothing()
    ensures forall topic :: !LiveMatch([Name(A), Hash, Name(B)], topic)
    ensures RetainedMatch([Name(A), Hash, Name(B)], [A])
  {
    var p, g := [Name(A), Hash, Name(B)], [Name(A)];
    forall topic ensures !LiveMatch(p, topic) {
      HashInTheMiddle(p, topic, 1);
    }
    assert p == g + [Hash] + [Name(B)];
    DualWithHashInside(g, [Name(B)], [A]);
    assert LiveMatch(g, [A]);
  }

  // ----- retained messages -----

  function Retained(payload: Text): Message {
    Message(None, None, 0, A, AtMostOnce, payload, true, NO_PROPERTIES)
  }

  const SMALL: TrieRuns.Op := TrieRuns.SetRetainedMessage([A], Some(Retained([0])))
  const LARGE: TrieRuns.Op := TrieRuns.SetRetainedMessage([A], Some(Retained([0, 0])))
  const GONE: TrieRuns.Op := TrieRuns.SetRetainedMessage([A], None)

  /** One byte replaced by two: the counter stays at one. Then the message is deleted, and the
      counter goes below zero. */
  lemma ReplacementUnderflows()
    ensures TrieRuns.PossibleRun([SMALL, LARGE]) && TrieRuns.PossibleRun([SMALL, LARGE] + [GONE])
    ensures TrieRuns.Run(TrieRuns.NO_TRIE, [SMALL, LARGE]).retainedBytes == 1
    ensures TrieRuns.Bytes(TrieRuns.RunRetained([SMALL, LARGE])) == 2
    ensures TrieRuns.Run(TrieRuns.NO_TRIE, [SMALL, LARGE] + [GONE]).retainedBytes == -1
  {
    TwoSets();
    hide TrieRuns.RunRetained, TrieRuns.Run, TrieRuns.PossibleRun, RetainedBytes.TotalGrowth;
    var table: TrieSpec.Retained := map[[A] := Retained([0, 0])];
    assert table - {[A]} == map[];
    TrieRuns.BytesWithout(table, [A]);
    RetainedBytes.OneMorePossible([SMALL, LARGE], GONE);
    Last([SMALL, LARGE], GONE);
    RetainedBytes.BytesDrift([SMALL, LARGE]);
    RetainedBytes.BytesDrift([SMALL, LARGE] + [GONE]);
  }

  lemma TwoSets()
    ensures TrieRuns.PossibleRun([SMALL, LARGE]) && RetainedBytes.TotalGrowth([SMALL, LARGE]) == 1
    ensures TrieRuns.RunRetained([SMALL, LARGE]) == map[[A] := Retained([0, 0])]
  {
    assert TrieRuns.PossibleRun([]) && TrieRuns.RunRetained([]) == map[] && RetainedBytes.TotalGrowth([]) == 0;
    hide TrieRuns.RunRetained, TrieRuns.Run, TrieRuns.PossibleRun, RetainedBytes.TotalGrowth;
    assert [] + [SMALL] == [SMALL] && [SMALL] + [LARGE] == [SMALL, LARGE];
    RetainedBytes.OneMorePossible([], SMALL);
    Last([], SMALL);
    RetainedBytes.OneMorePossible([SMALL], LARGE);
    Last([SMALL], LARGE);
  }

  lemma Last(ops: seq<TrieRuns.Op>, op: TrieRuns.Op)
    ensures TrieRuns.RunRetained(ops + [op]) == TrieRuns.ApplyRetained(TrieRuns.RunRetained(ops), op)
  {
    assert (ops + [op])[..|ops + [op]| - 1] == ops;
  }

  /** A message retained at second 0 with an interval of 10 seconds has 1 second left at second 9. A copy
      that is made then for a new subscriber, and sent at once, says 10. */
  lemma WaitingIsNotCounted()
    ensures var msg := Retained([0]).(properties := NO_PROPERTIES.(messageExpiryInterval := Some(10)));
      var item := FilterItem(AtMostOnce, false, false, OnEverySubscribe, None);
      && Outbound.IntervalLeft(msg, 9 * SECOND) == Some(1)
      && StoreSpec.RetainedCopies([msg], item, A, 9 * SECOND) == [StoreSpec.Copy(msg, [item], 9 * SECOND)]
      && StoreSpec.Copy(msg, [item], 9 * SECOND).ToPublish(9 * SECOND).Some?
      && StoreSpec.Copy(msg, [item], 9 * SECOND).ToPublish(9 * SECOND).value.properties.messageExpiryInterval == Some(10)
  {
    var msg := Retained([0]).(properties := NO_PROPERTIES.(messageExpiryInterval := Some(10)));
    assert [msg][..0] == [];
  }

  // ----- sessions -----

  /** A second disconnection, five seconds after the first, leaves the first deadline behind. Module
      StoreRuns leaves it out, and one connection alone does not cause it. It takes a takeover in
      which the old connection is torn down, by client identifier
      (libs/service/src/client_loop.rs:1170-1181), only after the new one has connected: then each of
      the two disconnects the same session. */
  lemma SecondDisconnection()
    ensures var st := StoreSpec.CreateSession(StoreSpec.NO_STORE, A, false, None).1;
      var once := StoreSpec.DisconnectSession(st, A, 10, 0);
      var twice := StoreSpec.DisconnectSession(once, A, 10, 5 * SECOND);
      && StoreIndexes.Indexed(once) && !StoreIndexes.Indexed(twice)
      && StoreSpec.TimeoutKey(A, 10 * SECOND) in twice.removeTimeouts
  {
    var st := StoreSpec.CreateSession(StoreSpec.NO_STORE, A, false, None).1;
    var once := StoreSpec.DisconnectSession(st, A, 10, 0);
    assert StoreIndexes.Indexed(st) && StoreIndexes.Connected(st, A);
    StoreIndexes.DisconnectKeepsIndexesIff(st, A, 10, 0);
    StoreIndexes.DisconnectKeepsIndexesIff(once, A, 10, 5 * SECOND);
  }

  /** A client with a will disconnects and comes back with a clean start: the will is neither sent nor
      pending any more. */
  lemma CleanStartDropsWill()
    ensures var will := LastWill(A, [], AtMostOnce, false, None, NO_PROPERTIES);
      var st := StoreSpec.CreateSession(StoreSpec.NO_STORE, A, false, Some(will)).1;
      var away := StoreSpec.DisconnectSession(st, A, 10, 0);
      var back := StoreSpec.CreateSession(away, A, true, None).1;
      && StoreIndexes.Pending(away, A) && !StoreIndexes.Pending(back, A)
      && back.willTimeouts == {} && back.sessions[A].queue == []
  {
    var will := LastWill(A, [], AtMostOnce, false, None, NO_PROPERTIES);
    var st := StoreSpec.CreateSession(StoreSpec.NO_STORE, A, false, Some(will)).1;
    assert StoreIndexes.Indexed(st) && StoreIndexes.Connected(st, A);
  }

  // ----- connections -----

  function Queued(qos: Qos): Message {
    Message(None, None, 0, A, qos, [], false, NO_PROPERTIES)
  }

  /** What a drain does with one message. */
  lemma DrainOne(c: ConnSpec.Conn, qos: Qos)
    requires qos != AtMostOnce
    ensures ConnSpec.DeliveAll(c, [Queued(qos)], 0).0 == ConnSpec.Delive(c, Queued(qos), 0).0
  {
    assert [Queued(qos)][..0] == [];
  }

  /** A connection that ends with two packets in flight, and a resumption that allows one. */
  lemma ResumptionWraps()
    ensures var c := ConnRuns.Opened(V5, A, 0, Some(2), [Queued(AtLeastOnce), Queued(AtLeastOnce)], []).conn;
      var before := ConnSpec.OnNotified(c, 0).0;
      var after := ConnRuns.Opened(V5, A, 0, Some(1), before.queue, before.inflight);
      && |before.inflight| == 2
      && !ConnRuns.OutboundOk(after) && after.conn.receiveOutQuota == USIZE_MAX
  {
    var m := Queued(AtLeastOnce);
    var c := ConnRuns.Opened(V5, A, 0, Some(2), [m, m], []).conn;
    TwoInFlight(c, m);
    var before := ConnSpec.OnNotified(c, 0).0;
    hide ConnSpec.OnNotified;
    ConnRuns.OpenedOutboundIff(V5, A, 0, Some(1), before.queue, before.inflight);
  }

  lemma TwoInFlight(c: ConnSpec.Conn, m: Message)
    requires m == Queued(AtLeastOnce) && c.queue == [m, m] && c.inflight == []
    requires c.clientId.Some? && c.receiveOutQuota == 2
    ensures |ConnSpec.OnNotified(c, 0).0.inflight| == 2
  {
    var two := [m, m];
    var c1 := c.(queue := c.queue[2..]);
    assert two[..2] == two && two[..1] == [m] && two[1] == m && !m.IsExpired(0);
    DrainOne(c1, AtLeastOnce);
    assert ConnSpec.DeliveAll(c1, two, 0).0 ==
           ConnSpec.Delive(ConnSpec.DeliveAll(c1, [m], 0).0, m, 0).0;
  }

  /** A failing PUBREC releases the only packet, and the quota it took is gone for good. */
  lemma FailingPubRecLeaks()
    ensures var c := ConnRuns.Opened(V5, A, 0, Some(1), [Queued(ExactlyOnce)], []).conn;
      var (c', effects, outcome) := ConnSpec.OnPubRec(ConnSpec.OnNotified(c, 0).0, 1, false);
      c'.inflight == [] && c'.receiveOutQuota == 0 && outcome == ConnSpec.Continue
  {
    var c := ConnRuns.Opened(V5, A, 0, Some(1), [Queued(ExactlyOnce)], []).conn;
    assert c.queue[..1] == [Queued(ExactlyOnce)];
    DrainOne(c.(queue := c.queue[1..]), ExactlyOnce);
    hide ConnSpec.DeliveAll;
  }

  /** A QoS 2 packet is in flight under identifier 1 when its client comes back. */
  function Resumed(queue: seq<Message>): ConnRuns.State {
    ConnRuns.Opened(V5, A, 0, None, queue, [Publish(false, ExactlyOnce, false, A, Some(1), NO_PROPERTIES, [])])
  }

  /** The packet is sent again, and the PUBREC for it ends the connection. */
  lemma ResumedHandshakeFails()
    ensures ConnSpec.OnPubRec(Resumed([]).conn, 1, true).2 == ConnSpec.Disconnect(ConnSpec.ProtocolError)
  {
    ConnRuns.OpenedOk(V5, A, 0, None, [], Resumed([]).conn.inflight);
    Outbound.ResumedPubRecRefused(Resumed([]), [], 1, true);
  }

  /** The next message gets the same identifier. */
  lemma ResumedIdentifierTwice()
    ensures var c := ConnSpec.OnNotified(Resumed([Queued(AtLeastOnce)]).conn, 0).0;
      |c.inflight| == 2 && c.inflight[0].packetId == c.inflight[1].packetId == Some(1)
  {
    var c := Resumed([Queued(AtLeastOnce)]).conn;
    assert c.queue[..1] == [Queued(AtLeastOnce)];
    DrainOne(c.(queue := c.queue[1..]), AtLeastOnce);
    hide ConnSpec.DeliveAll;
  }

  const ENV: ConnSpec.Env := ConnSpec.Env(0, true, _ => true, topic => topic, None, 0)

  function Qos2Publish(payload: Text): ConnRuns.Input {
    ConnRuns.GetPublish(Publish(false, ExactlyOnce, false, A, Some(1), NO_PROPERTIES, payload), ENV)
  }

  function Qos2Message(payload: Text): Message {
    Message(Some(A), None, 0, A, ExactlyOnce, payload, false, NO_PROPERTIES)
  }

  /** A failing PUBREL discards the only message, and the quota it took is gone for good. */
  lemma FailingPubRelLeaks()
    ensures var t := ConnRuns.Opened(V5, A, 1, None, [], []);
      var t' := ConnRuns.Step(ConnRuns.Step(t, Qos2Publish([])), ConnRuns.GetPubRel(1, false));
      t'.conn.uncompleted == map[] && t'.conn.receiveInQuota == 0
  {
  }

  /** A message is accepted, a second one is refused because its identifier is in use, and the PUBREL
      fans out the second. */
  lemma RefusedReplacesAccepted()
    ensures var t := ConnRuns.Opened(V5, A, 2, None, [], []);
      var (c1, effects1, _) := ConnSpec.OnPublish(t.conn, Qos2Publish([1]).publish, ENV);
      var (c2, effects2, _) := ConnSpec.OnPublish(c1, Qos2Publish([2]).publish, ENV);
      && effects1 == [ConnSpec.Send(ConnSpec.PubRec(1, false))]
      && effects2 == [ConnSpec.Send(ConnSpec.PubRec(1, true))]
      && ConnSpec.OnPubRel(c2, 1, true).1 ==
         [ConnSpec.Deliver(Qos2Message([2])), ConnSpec.Send(ConnSpec.PubComp(1, true))]
  {
  }

  // ----- packets -----

  const LIMIT: nat := 1000

  function Plain(topic: Text, packetId: Option<NonZeroU16>, properties: PublishProperties): Publish {
    Publish(false, AtMostOnce, false, topic, packetId, properties, [])
  }

  /** The largest integer can be printed and read back, but no length is declared for it. */
  lemma LargestIsRefused()
    ensures Wire.DeclaredLength(268_435_455).Err?
    ensures Wire.ReadVarInt(Wire.VarInt(268_435_455) + []) == Ok((268_435_455, []))
  {
    Wire.VarIntRoundTrip(268_435_455, []);
  }

  /** A PUBLISH with subscription identifier 16383 is encoded, and decodes to something else. */
  lemma PublishOnBoundary()
    ensures var p := Plain(A, None, NO_PROPERTIES.(subscriptionIdentifiers := [16383]));
      && P.WellFormed(p) && P.Encode(p, V5, LIMIT).Ok?
      && P.Decode(P.Body(p, V5), V5, P.PUBLISH * 16 + P.Flags(p)) != Ok(P.Canonical(p))
  {
    var p := Plain(A, None, NO_PROPERTIES.(subscriptionIdentifiers := [16383]));
    OneItem(Properties.SubscriptionIdentifier(16383));
    assert P.IdItems([16383]) == [Properties.SubscriptionIdentifier(16383)];
    assert P.Items(p.properties) == [Properties.SubscriptionIdentifier(16383)];
    P.RoundTripIff(p, V5, LIMIT);
  }

  lemma OneItem(item: Properties.Property)
    ensures Properties.AllFit([item]) <==> item.Fits()
    ensures Properties.AllWellFormed([item]) <==> item.WellFormed()
    ensures item.Declared().Ok? ==> Properties.AllDeclared([item]) == item.Declared()
  {
    assert [item][1..] == [];
  }

  /** A SUBSCRIBE with that identifier is encoded, and does not decode. */
  lemma SubscribeOnBoundary()
    ensures var p := S.Subscribe(1, S.SubscribeProperties(Some(16383), []), []);
      && S.WellFormed(p) && S.Encode(p, V5, LIMIT).Ok?
      && S.Decode(S.Body(p, V5), V5, S.FIRST_BYTE).Err?
  {
    var p := S.Subscribe(1, S.SubscribeProperties(Some(16383), []), []);
    OneItem(Properties.SubscriptionIdentifier(16383));
    assert S.Items(p.properties) == [Properties.SubscriptionIdentifier(16383)];
    S.RoundTripAtV5(p);
  }

  /** A property that comes twice is a protocol error (section 3.3.2.3 of MQTT 5.0); here the second counts. */
  lemma SecondPropertyCounts()
    ensures var items := [Properties.ContentType(A), Properties.ContentType(B)];
      && Properties.AllFit(items)
      && P.AddProperties(NO_PROPERTIES, Properties.AllBytes(items)) == Ok(NO_PROPERTIES.(contentType := Some(B)))
  {
    var items := [Properties.ContentType(A), Properties.ContentType(B)];
    var (first, rest) := (NO_PROPERTIES.(contentType := Some(A)), items[1..]);
    assert rest == [Properties.ContentType(B)] && rest[1..] == [];
    P.AddPrinted(NO_PROPERTIES, items);
    hide P.AddProperties, Properties.AllBytes;
    assert P.WithAll(NO_PROPERTIES, items) == P.WithAll(first, rest);
    assert P.WithAll(first, rest) == P.WithAll(first.(contentType := Some(B)), []);
  }

  /** A PUBLISH whose property section is 16383 bytes long is encoded, and stalls the stream. */
  lemma SectionOnBoundary(others: FramerSpec.Others)
    ensures var data: Text := seq(16380, _ => 0);
      var p := Plain(A, None, NO_PROPERTIES.(correlationData := Some(data)));
      && P.WellFormed(p) && P.Encode(p, V5, USIZE_MAX).Ok?
      && FramerSpec.ParseStream(P.Encode(p, V5, USIZE_MAX).value, V5, USIZE_MAX, others) !=
         FramerSpec.Parse([(FramerSpec.Packet.Publish(P.Canonical(p)), P.DeclaredSize(p, V5).value)], FramerSpec.End, V5)
  {
    var data: Text := seq(16380, _ => 0);
    var p := Plain(A, None, NO_PROPERTIES.(correlationData := Some(data)));
    OneItem(Properties.CorrelationData(data));
    assert P.Items(p.properties) == [Properties.CorrelationData(data)];
    FramerSpec.PublishSurvivesIff(p, V5, USIZE_MAX, USIZE_MAX, others);
  }

  /** A PUBLISH at QoS 0 that has a packet identifier is encoded, and decodes to something else. */
  lemma IdentifierAtQos0()
    ensures var p := Plain(A, Some(1), NO_PROPERTIES);
      && P.WellFormed(p) && P.Encode(p, V5, LIMIT).Ok?
      && P.Decode(P.Body(p, V5), V5, P.PUBLISH * 16 + P.Flags(p)) != Ok(P.Canonical(p))
  {
    var p := Plain(A, Some(1), NO_PROPERTIES);
    P.RoundTripIff(p, V5, LIMIT);
  }

  /** Packets exactly as large as the limit: PUBLISH goes, SUBSCRIBE does not. */
  lemma AtTheLimit()
    ensures var p := Plain(A, None, NO_PROPERTIES);
      P.DeclaredSize(p, V4) == Ok(3) && P.Encode(p, V4, 3).Ok?
    ensures var s := S.Subscribe(1, S.NONE, []);
      S.DeclaredSize(s, V4) == Ok(2) && S.Encode(s, V4, 2) == Err(Wire.EncodeError.PacketTooLarge) && S.Encode(s, V4, 3).Ok?
  {
    P.LimitIff(Plain(A, None, NO_PROPERTIES), V4, 3);
    S.LimitIff(S.Subscribe(1, S.NONE, []), V4, 2);
  }

  /** A PUBLISH that is too large leaves its first byte in the buffer, before the next packet. */
  lemma FailedEncodeLeavesAByte()
    ensures var p := Plain(A, None, NO_PROPERTIES);
      P.Encode(p, V4, 2).Err? && P.Leaves(p, V4, 2) == [0x30]
  {
  }
}
