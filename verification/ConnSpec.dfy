/** One connection of libs/service/src/client_loop.rs as a value: quotas, identifiers, the two
    handshakes, and the queues of the session it serves. Storage calls that reach other sessions,
    and packets sent, are effects. */
module ConnSpec {
  import opened Types
  import opened Messages
  import opened FilterUtil
  import opened Utf8
  import opened PacketIds
  import opened StoreSpec

  datatype Qos2State = Published | Recorded

  datatype Conn = Conn(
    level: ProtocolLevel,
    clientId: Option<Text>,
    receiveInMax: nat,
    receiveOutMax: nat,
    receiveInQuota: nat,
    receiveOutQuota: nat,
    topicAlias: map<NonZeroU16, Text>,
    nextId: NonZeroU16,
    qos2: map<NonZeroU16, Qos2State>,
    uncompleted: map<NonZeroU16, Message>,
    queue: seq<Message>,
    inflight: seq<Publish>)

  datatype Sent =
    | PubAck(id: NonZeroU16)
    | PubRec(id: NonZeroU16, inUse: bool)
    | PubRel(id: NonZeroU16, found: bool)
    | PubComp(id: NonZeroU16, found: bool)
    | SendPublish(publish: Publish)

  datatype Effect =
    | Send(packet: Sent)
    | Deliver(msg: Message)
    | Retain(msg: Message)

  datatype Reason =
    | ProtocolError
    | NotAuthorized
    | TopicNameInvalid
    | ReceiveMaximumExceeded
    | TopicAliasInvalid
    | RetainNotSupported
    | PayloadFormatInvalid

  /** The connection goes on, or the server disconnects. */
  datatype Outcome = Continue | Disconnect(reason: Reason)

  type Handled = (Conn, seq<Effect>, Outcome)

  /** What the handlers ask of their surroundings. */
  datatype Env = Env(
    maxTopicAlias: u16,
    retainAvailable: bool,
    allows: Text -> bool,
    rewrite: Text -> Text,
    uid: Option<Text>,
    now: nat)

  /** Subtraction on a `usize`, which wraps round. */
  function Minus(a: nat, b: nat): nat {
    (a - b) % (USIZE_MAX + 1)
  }

  lemma MinusAgain(a: nat, b: nat)
    ensures Minus(Minus(a, b), 1) == Minus(a, b + 1)
    ensures a <= USIZE_MAX ==> Minus(a, 0) == a
  {
    var m := USIZE_MAX + 1;
    assert a - b == (a - b) / m * m + (a - b) % m;
    if (a - b) % m == 0 {
      assert a - b - 1 == ((a - b) / m - 1) * m + (m - 1);
    } else {
      assert a - b - 1 == (a - b) / m * m + ((a - b) % m - 1);
    }
  }

  // ----- connecting -----

  function ReceiveOutMax(receiveMax: Option<u16>): nat {
    if receiveMax.Some? then receiveMax.value else USIZE_MAX
  }

  function Resent(inflight: seq<Publish>): seq<Effect> {
    if inflight == [] then []
    else Resent(inflight[..|inflight| - 1]) + [Send(SendPublish(inflight[|inflight| - 1].(dup := true)))]
  }

  /** A connection takes up a session: fresh quotas and identifiers, and what is in flight goes out
      again. */
  function Open(level: ProtocolLevel, clientId: Text, receiveInMax: u16, receiveMax: Option<u16>,
                queue: seq<Message>, inflight: seq<Publish>): (Conn, seq<Effect>)
  {
    var max := ReceiveOutMax(receiveMax);
    (Conn(level, Some(clientId), receiveInMax, max, receiveInMax, Minus(max, |inflight|), map[], 1, map[], map[],
          queue, inflight),
     Resent(inflight))
  }

  // ----- messages from the client -----

  const DOLLAR: byte := 0x24

  /** The checks on a PUBLISH, in order. */
  function CheckPublish(publish: Publish, env: Env): Option<Reason> {
    if publish.properties.topicAlias.Some? && publish.properties.topicAlias.value > env.maxTopicAlias then
      Some(TopicAliasInvalid)
    else if publish.topic == [] && publish.properties.topicAlias.None? then Some(ProtocolError)
    else if publish.qos != AtMostOnce && publish.packetId.None? then Some(ProtocolError)
    else if publish.properties.subscriptionIdentifiers != [] then Some(ProtocolError)
    else if publish.topic != [] && publish.topic[0] == DOLLAR then Some(TopicNameInvalid)
    else if publish.topic != [] && !ValidTopic(publish.topic) then Some(TopicNameInvalid)
    else if publish.retain && !env.retainAvailable then Some(RetainNotSupported)
    else if publish.properties.payloadFormatIndicator == Some(true) && !ValidUtf8(publish.payload) then
      Some(PayloadFormatInvalid)
    else None
  }

  /** The topic an alias stands for, and the aliases afterwards. */
  function ResolveTopic(aliases: map<NonZeroU16, Text>, publish: Publish): Option<(Text, map<NonZeroU16, Text>)> {
    match publish.properties.topicAlias
    case Some(alias) =>
      if publish.topic != [] then Some((publish.topic, aliases[alias := publish.topic]))
      else if alias in aliases then Some((aliases[alias], aliases))
      else None
    case None => if publish.topic != [] then Some((publish.topic, aliases)) else None
  }

  /** What becomes of an accepted message, by its quality of service. */
  function Accept(c: Conn, msg: Message, id: Option<NonZeroU16>): Handled
    requires msg.qos != AtMostOnce ==> id.Some?
  {
    match msg.qos
    case AtMostOnce => (c, [Deliver(msg)], Continue)
    case AtLeastOnce => (c, [Deliver(msg), Send(PubAck(id.value))], Continue)
    case ExactlyOnce =>
      if c.receiveInQuota == 0 then (c, [], Disconnect(ReceiveMaximumExceeded))
      else
        var c' := c.(uncompleted := c.uncompleted[id.value := msg]);
        if id.value in c.uncompleted then
          if c.level == V5 then (c', [Send(PubRec(id.value, true))], Continue)
          else (c', [], Disconnect(ProtocolError))
        else (c'.(receiveInQuota := Minus(c.receiveInQuota, 1)), [Send(PubRec(id.value, false))], Continue)
  }

  function OnPublish(c: Conn, publish: Publish, env: Env): Handled {
    if c.clientId.None? then (c, [], Disconnect(ProtocolError))
    else match CheckPublish(publish, env)
      case Some(reason) => (c, [], Disconnect(reason))
      case None =>
        match ResolveTopic(c.topicAlias, publish)
        case None => (c, [], Disconnect(ProtocolError))
        case Some((topic, aliases)) =>
          var c' := c.(topicAlias := aliases);
          if !env.allows(topic) then (c', [], Disconnect(NotAuthorized))
          else
            var msg := FromPublish(publish.(topic := env.rewrite(topic)), c.clientId.value, env.uid, env.now);
            var (c'', effects, outcome) := Accept(c', msg, publish.packetId);
            (c'', (if publish.retain then [Retain(msg)] else []) + effects, outcome)
  }

  function OnPubRel(c: Conn, id: NonZeroU16, success: bool): Handled {
    if c.clientId.None? then (c, [], Disconnect(ProtocolError))
    else if id in c.uncompleted then
      var c' := c.(uncompleted := c.uncompleted - {id});
      if !success then (c', [], Continue)
      else
        (c'.(receiveInQuota := c.receiveInQuota + 1),
         [Deliver(c.uncompleted[id]), Send(PubComp(id, true))], Continue)
    else if c.level == V5 then (c, [Send(PubComp(id, false))], Continue)
    else (c, [], Disconnect(ProtocolError))
  }

  // ----- messages to the client -----

  /** The oldest in-flight packet is released, if it has this identifier. */
  function Release(c: Conn): Conn
    requires c.inflight != []
  {
    c.(inflight := c.inflight[1..])
  }

  function OnPubAck(c: Conn, id: NonZeroU16): Handled {
    if c.clientId.None? || FrontInflight(c.inflight, id).None? then (c, [], Disconnect(ProtocolError))
    else (Release(c).(receiveOutQuota := c.receiveOutQuota + 1), [], Continue)
  }

  function OnPubRec(c: Conn, id: NonZeroU16, success: bool): Handled {
    if c.clientId.None? || id !in c.qos2 || c.qos2[id] != Published then (c, [], Disconnect(ProtocolError))
    else
      var c' := c.(qos2 := c.qos2[id := Recorded]);
      var found := FrontInflight(c.inflight, id).Some?;
      if !success then
        if found then (Release(c'), [], Continue) else (c', [], Disconnect(ProtocolError))
      else if found then (c', [Send(PubRel(id, true))], Continue)
      else if c.level == V5 then (c', [Send(PubRel(id, false))], Continue)
      else (c', [], Disconnect(ProtocolError))
  }

  /** One message goes out, unless it has expired. */
  function Delive(c: Conn, msg: Message, now: nat): (Conn, seq<Effect>) {
    match msg.ToPublish(now)
    case None => (c, [])
    case Some(publish) =>
      if publish.qos == AtMostOnce then (c, [Send(SendPublish(publish))])
      else
        var publish' := publish.(packetId := Some(c.nextId));
        (c.(nextId := NextId(c.nextId), receiveOutQuota := Minus(c.receiveOutQuota, 1),
            inflight := c.inflight + [publish'], qos2 := c.qos2[c.nextId := Published]),
         [Send(SendPublish(publish'))])
  }

  function DeliveAll(c: Conn, msgs: seq<Message>, now: nat): (Conn, seq<Effect>) {
    if msgs == [] then (c, [])
    else
      var (c', effects) := DeliveAll(c, msgs[..|msgs| - 1], now);
      var msg := msgs[|msgs| - 1];
      if msg.IsExpired(now) then (c', effects)
      else
        var (c'', more) := Delive(c', msg, now);
        (c'', effects + more)
  }

  /** As much of the queue as the quota allows. */
  function OnNotified(c: Conn, now: nat): (Conn, seq<Effect>) {
    if c.clientId.None? || c.receiveOutQuota == 0 then (c, [])
    else
      var n := Batch(c.queue, Some(c.receiveOutQuota));
      DeliveAll(c.(queue := c.queue[n..]), c.queue[..n], now)
  }

  function OnPubComp(c: Conn, id: NonZeroU16, now: nat): Handled {
    if c.clientId.None? then (c, [], Disconnect(ProtocolError))
    else
      var c' := c.(qos2 := c.qos2 - {id});
      if id !in c.qos2 || c.qos2[id] != Recorded then (c', [], Disconnect(ProtocolError))
      else if FrontInflight(c.inflight, id).Some? then
        var (c'', effects) := OnNotified(Release(c').(receiveOutQuota := c.receiveOutQuota + 1), now);
        (c'', effects, Continue)
      else (c', [], Continue)
  }
}
