/** Messages from the client, told by the packets and by what came before them: which PUBLISH is taken,
    what message it becomes, and what is sent, fanned out and retained for it
    (libs/service/src/client_loop.rs:426-606, 696-748). */
module Inbound {
  import opened Types
  import opened Messages
  import opened Utf8
  import opened StoreSpec
  import opened ConnSpec
  import opened ConnRuns
  import opened Qos2Runs
  import O = Outbound

  // ----- which PUBLISH is taken -----

  /** What a PUBLISH must be, whatever came before it. */
  predicate Acceptable(p: Publish, env: Env) {
    && (p.properties.topicAlias.Some? ==> p.properties.topicAlias.value <= env.maxTopicAlias)
    && (p.topic == [] ==> p.properties.topicAlias.Some?)
    && (p.qos == AtLeastOnce || p.qos == ExactlyOnce ==> p.packetId.Some?)
    && p.properties.subscriptionIdentifiers == []
    && 0x2b !in p.topic && 0x23 !in p.topic && (p.topic != [] ==> p.topic[0] != 0x24)  // no "+", no "#", no "$" in front
    && (p.retain ==> env.retainAvailable)
    && (p.properties.payloadFormatIndicator == Some(true) ==> ValidUtf8(p.payload))
  }

  lemma AcceptableIff(p: Publish, env: Env)
    ensures CheckPublish(p, env).None? <==> Acceptable(p, env)
  {
  }

  /** The topic that an alias was last given. */
  function AliasGiven(inputs: seq<Input>, alias: NonZeroU16): Option<Text> {
    if inputs == [] then None
    else
      var last := inputs[|inputs| - 1];
      if last.GetPublish? && Acceptable(last.publish, last.env) && last.publish.topic != [] &&
         last.publish.properties.topicAlias == Some(alias)
      then Some(last.publish.topic)
      else AliasGiven(inputs[..|inputs| - 1], alias)
  }

  /** The topic of a PUBLISH: its own, or the one that its alias stands for. */
  function TopicOf(inputs: seq<Input>, p: Publish): Option<Text> {
    if p.topic != [] then Some(p.topic)
    else match p.properties.topicAlias
      case Some(alias) => AliasGiven(inputs, alias)
      case None => None
  }

  predicate Taken(inputs: seq<Input>, p: Publish, env: Env) {
    Acceptable(p, env) && TopicOf(inputs, p).Some? && env.allows(TopicOf(inputs, p).value)
  }

  /** The message that a PUBLISH becomes. */
  function MessageOf(inputs: seq<Input>, p: Publish, env: Env, client: Text): Message
    requires Taken(inputs, p, env)
  {
    Message(
      Some(client),
      env.uid,
      env.now,
      env.rewrite(TopicOf(inputs, p).value),
      p.qos,
      p.payload,
      p.retain,
      PublishProperties(
        p.properties.payloadFormatIndicator,
        p.properties.messageExpiryInterval,
        None,
        p.properties.responseTopic,
        p.properties.correlationData,
        p.properties.userProperties,
        [],
        p.properties.contentType))
  }

  /** A connection that has just opened for a client. */
  predicate Fresh(t: State, client: Text) {
    t.conn.clientId == Some(client) && t.conn.topicAlias == map[] && t.conn.uncompleted == map[]
  }

  function AliasIn(c: Conn, alias: NonZeroU16): Option<Text> {
    if alias in c.topicAlias then Some(c.topicAlias[alias]) else None
  }

  lemma PublishAliases(c: Conn, p: Publish, env: Env, alias: NonZeroU16)
    requires c.clientId.Some?
    ensures AliasIn(OnPublish(c, p, env).0, alias) ==
      if Acceptable(p, env) && p.topic != [] && p.properties.topicAlias == Some(alias) then Some(p.topic)
      else AliasIn(c, alias)
  {
    assert Acceptable(p, env) && p.qos != AtMostOnce ==> p.packetId.Some?;
    hide CheckPublish, Acceptable, Accept;
    AcceptableIff(p, env);
    if Acceptable(p, env) && ResolveTopic(c.topicAlias, p).Some? {
      var (topic, aliases) := ResolveTopic(c.topicAlias, p).value;
      if env.allows(topic) {
        AcceptKeepsAliases(c.(topicAlias := aliases),
                           FromPublish(p.(topic := env.rewrite(topic)), c.clientId.value, env.uid, env.now), p.packetId);
      }
    }
  }

  lemma AcceptKeepsAliases(c: Conn, msg: Message, id: Option<NonZeroU16>)
    requires msg.qos != AtMostOnce ==> id.Some?
    ensures Accept(c, msg, id).0.topicAlias == c.topicAlias
  {
  }

  lemma AliasStep(c: Conn, input: Input, alias: NonZeroU16)
    requires c.clientId.Some? && c.receiveOutQuota + |c.inflight| <= USIZE_MAX
    ensures AliasIn(Handle(c, input).0, alias) ==
      if input.GetPublish? && Acceptable(input.publish, input.env) && input.publish.topic != [] &&
         input.publish.properties.topicAlias == Some(alias)
      then Some(input.publish.topic) else AliasIn(c, alias)
  {
    hide Acceptable, OnPublish, OnNotified, OnPubComp;
    match input
    case GetPublish(publish, env) => PublishAliases(c, publish, env, alias);
    case GetPubComp(id, now) => PubCompKeepsAliases(c, id, now);
    case Notified(now) => NotifiedKeeps(c, now);
    case _ =>
  }

  lemma PubCompKeepsAliases(c: Conn, id: NonZeroU16, now: nat)
    requires c.receiveOutQuota + |c.inflight| <= USIZE_MAX
    ensures OnPubComp(c, id, now).0.topicAlias == c.topicAlias
  {
    hide OnNotified;
    if c.inflight != [] {
      NotifiedKeeps(Completed(c, id), now);
    }
  }

  /** Over every run of a fresh connection an alias stands for the topic it was last given. */
  lemma {:induction false} RunAliases(t: State, client: Text, inputs: seq<Input>, alias: NonZeroU16)
    requires AllOk(t) && Fresh(t, client)
    ensures AliasIn(Run(t, inputs).conn, alias) == AliasGiven(inputs, alias)
    ensures Run(t, inputs).conn.clientId == Some(client)
  {
    hide Handle, Acceptable, AllOk, Record, Stored;
    if inputs != [] {
      var n := |inputs| - 1;
      RunAliases(t, client, inputs[..n], alias);
      O.WithinLimits(t, inputs[..n]);
      AliasStep(Run(t, inputs[..n]).conn, inputs[n], alias);
      O.KeepsClient(Run(t, inputs[..n]).conn, inputs[n]);
    }
  }

  // ----- what is answered -----

  /** The message that waits for its PUBREL: the last that came under an identifier after the last
      PUBREL of it. */
  function Awaited(t: State, inputs: seq<Input>, id: NonZeroU16): Option<Message> {
    if inputs == [] then None
    else
      var n := |inputs| - 1;
      var s := Stored(Run(t, inputs[..n]).conn, inputs[n]);
      if s.Some? && s.value.0 == id then Some(s.value.1)
      else if inputs[n].GetPubRel? && inputs[n].id == id then None
      else Awaited(t, inputs[..n], id)
  }

  function HeldIn(c: Conn, id: NonZeroU16): Option<Message> {
    if id in c.uncompleted then Some(c.uncompleted[id]) else None
  }

  lemma {:induction false} RunAwaited(t: State, client: Text, inputs: seq<Input>, id: NonZeroU16)
    requires AllOk(t) && Fresh(t, client)
    ensures HeldIn(Run(t, inputs).conn, id) == Awaited(t, inputs, id)
    ensures Run(t, inputs).conn.clientId == Some(client)
  {
    hide Handle, AllOk, Record, Stored, AcceptedIn;
    if inputs != [] {
      var n := |inputs| - 1;
      RunAwaited(t, client, inputs[..n], id);
      O.WithinLimits(t, inputs[..n]);
      StoredExact(Run(t, inputs[..n]).conn, inputs[n]);
      HeldStep(Run(t, inputs[..n]).conn, Run(t, inputs).conn, inputs[n], id);
    }
  }

  lemma HeldStep(c: Conn, c': Conn, input: Input, id: NonZeroU16)
    requires var s := Stored(c, input);
      c'.uncompleted == if s.Some? then c.uncompleted[s.value.0 := s.value.1]
                        else if input.GetPubRel? && c.clientId.Some? then c.uncompleted - {input.id}
                        else c.uncompleted
    requires c.clientId.Some?
    ensures var s := Stored(c, input);
      HeldIn(c', id) == if s.Some? && s.value.0 == id then Some(s.value.1)
                        else if input.GetPubRel? && input.id == id then None
                        else HeldIn(c, id)
  {
  }

  /** A PUBREL fans out the message that waits for it, if it reports success, and is answered with a
      PUBCOMP that says whether there was one; at level 4 the connection ends if there was none. */
  lemma PubRelAnswered(t: State, client: Text, inputs: seq<Input>, id: NonZeroU16, success: bool)
    requires AllOk(t) && Fresh(t, client)
    ensures var (c', effects, outcome) := OnPubRel(Run(t, inputs).conn, id, success);
      match Awaited(t, inputs, id)
      case Some(m) => outcome == Continue && effects == if success then [Deliver(m), Send(PubComp(id, true))] else []
      case None =>
        if Run(t, inputs).conn.level == V5 then outcome == Continue && effects == [Send(PubComp(id, false))]
        else outcome == Disconnect(ProtocolError) && effects == []
  {
    RunAwaited(t, client, inputs, id);
    hide Run, Awaited;
  }

  /** The topic that the connection finds for a PUBLISH is the one that was given. */
  lemma ResolvedIsTopicOf(t: State, client: Text, inputs: seq<Input>, p: Publish)
    requires AllOk(t) && Fresh(t, client)
    ensures var r := ResolveTopic(Run(t, inputs).conn.topicAlias, p);
      (if r.Some? then Some(r.value.0) else None) == TopicOf(inputs, p)
    ensures Run(t, inputs).conn.clientId == Some(client)
  {
    RunAliases(t, client, inputs, 1);
    if p.properties.topicAlias.Some? {
      RunAliases(t, client, inputs, p.properties.topicAlias.value);
    }
    hide Run, AliasGiven;
  }

  lemma MessageIsOf(inputs: seq<Input>, p: Publish, env: Env, client: Text)
    requires Taken(inputs, p, env)
    ensures FromPublish(p.(topic := env.rewrite(TopicOf(inputs, p).value)), client, env.uid, env.now) ==
            MessageOf(inputs, p, env, client)
  {
    hide Acceptable, TopicOf;
  }

  /** What a PUBLISH of a message is answered with: at QoS 0 and 1 it is fanned out at once, at QoS 1 then
      acknowledged; at QoS 2 it is recorded, as a new one or as one whose identifier is in use. */
  function Answer(msg: Message, id: Option<NonZeroU16>, waiting: Option<Message>, quota: nat, level: ProtocolLevel)
    : seq<Effect>
    requires msg.qos != AtMostOnce ==> id.Some?
  {
    (if msg.retain then [Retain(msg)] else []) +
    match msg.qos
    case AtMostOnce => [Deliver(msg)]
    case AtLeastOnce => [Deliver(msg), Send(PubAck(id.value))]
    case ExactlyOnce =>
      if quota == 0 then []
      else if waiting == None then [Send(PubRec(id.value, false))]
      else if level == V5 then [Send(PubRec(id.value, true))]
      else []
  }

  /** Exactly what comes of a PUBLISH after any run: nothing but a disconnection if it is not taken;
      otherwise its message is retained, fanned out, acknowledged or recorded. */
  lemma PublishAnswered(t: State, client: Text, inputs: seq<Input>, p: Publish, env: Env)
    requires AllOk(t) && Fresh(t, client)
    ensures var c := Run(t, inputs).conn;
      var (c', effects, outcome) := OnPublish(c, p, env);
      if !Taken(inputs, p, env) then effects == [] && outcome.Disconnect?
      else
        var waiting := if p.packetId.Some? then Awaited(t, inputs, p.packetId.value) else None;
        && effects == Answer(MessageOf(inputs, p, env, client), p.packetId, waiting, c.receiveInQuota, c.level)
        && (outcome == Continue <==>
            p.qos != ExactlyOnce || (c.receiveInQuota > 0 && (waiting == None || c.level == V5)))
  {
    var c := Run(t, inputs).conn;
    ResolvedIsTopicOf(t, client, inputs, p);
    AcceptableIff(p, env);
    if p.packetId.Some? {
      RunAwaited(t, client, inputs, p.packetId.value);
    }
    if Taken(inputs, p, env) {
      MessageIsOf(inputs, p, env, client);
    }
    hide Run, Awaited, Acceptable, CheckPublish, TopicOf, FromPublish, MessageOf, AllOk;
  }

  /** At QoS 2 the message that is put under the identifier is that of the packet. */
  lemma StoredIsMessage(t: State, client: Text, inputs: seq<Input>, p: Publish, env: Env)
    requires AllOk(t) && Fresh(t, client)
    ensures Stored(Run(t, inputs).conn, GetPublish(p, env)) ==
      if Taken(inputs, p, env) && p.qos == ExactlyOnce && Run(t, inputs).conn.receiveInQuota > 0
      then Some((p.packetId.value, MessageOf(inputs, p, env, client))) else None
  {
    ResolvedIsTopicOf(t, client, inputs, p);
    AcceptableIff(p, env);
    if Taken(inputs, p, env) {
      MessageIsOf(inputs, p, env, client);
    }
    hide Run, Acceptable, CheckPublish, TopicOf, FromPublish, MessageOf, AllOk;
  }

  /** Why a PUBLISH is refused, by what is wrong with it; the first thing counts. */
  lemma RefusedFor(p: Publish, env: Env)
    ensures var alias := p.properties.topicAlias;
      var tooLarge := alias.Some? && alias.value > env.maxTopicAlias;
      var incomplete := (p.topic == [] && alias.None?) || (p.qos != AtMostOnce && p.packetId.None?) ||
                        p.properties.subscriptionIdentifiers != [];
      var badTopic := p.topic != [] && (p.topic[0] == 0x24 || 0x2b in p.topic || 0x23 in p.topic);
      CheckPublish(p, env) ==
        if tooLarge then Some(TopicAliasInvalid)
        else if incomplete then Some(ProtocolError)
        else if badTopic then Some(TopicNameInvalid)
        else if p.retain && !env.retainAvailable then Some(RetainNotSupported)
        else if Acceptable(p, env) then None
        else Some(PayloadFormatInvalid)
  {
  }

  // ----- over a run -----

  /** What is seen of messages at QoS 0 and 1: those fanned out and the identifiers acknowledged; and the
      messages retained, whatever their QoS. */
  datatype Seen = Seen(fanned: seq<Message>, acked: seq<NonZeroU16>, retained: seq<Message>) {
    function Then(other: Seen): Seen {
      Seen(fanned + other.fanned, acked + other.acked, retained + other.retained)
    }
  }

  const NOTHING_SEEN: Seen := Seen([], [], [])

  function SeenOne(e: Effect): Seen {
    match e
    case Deliver(m) => if m.qos == ExactlyOnce then NOTHING_SEEN else Seen([m], [], [])
    case Retain(m) => Seen([], [], [m])
    case Send(packet) => if packet.PubAck? then Seen([], [packet.id], []) else NOTHING_SEEN
  }

  function SeenIn(effects: seq<Effect>): Seen {
    if effects == [] then NOTHING_SEEN
    else SeenIn(effects[..|effects| - 1]).Then(SeenOne(effects[|effects| - 1]))
  }

  function SeenOver(t: State, inputs: seq<Input>): Seen {
    if inputs == [] then NOTHING_SEEN
    else
      var n := |inputs| - 1;
      SeenOver(t, inputs[..n]).Then(SeenIn(Handle(Run(t, inputs[..n]).conn, inputs[n]).1))
  }

  /** What there is to see for one PUBLISH, and for those of a run. */
  function DueFor(inputs: seq<Input>, p: Publish, env: Env, client: Text): Seen
  {
    if !Taken(inputs, p, env) then NOTHING_SEEN
    else
      var m := MessageOf(inputs, p, env, client);
      Seen(
        if p.qos == ExactlyOnce then [] else [m],
        if p.qos == AtLeastOnce then [p.packetId.value] else [],
        if p.retain then [m] else [])
  }

  function Due(client: Text, inputs: seq<Input>): Seen {
    if inputs == [] then NOTHING_SEEN
    else
      var n := |inputs| - 1;
      Due(client, inputs[..n]).Then(
        match inputs[n]
        case GetPublish(p, env) => DueFor(inputs[..n], p, env, client)
        case _ => NOTHING_SEEN)
  }

  lemma SeenInOne(e: Effect)
    ensures SeenIn([e]) == SeenOne(e)
  {
    assert [e][..0] == [];
  }

  lemma SeenInTwo(a: Effect, b: Effect)
    ensures SeenIn([a, b]) == SeenOne(a).Then(SeenOne(b))
  {
    assert [a, b][..1] == [a];
    SeenInOne(a);
  }

  lemma SeenInThree(a: Effect, b: Effect, c: Effect)
    ensures SeenIn([a, b, c]) == SeenOne(a).Then(SeenOne(b)).Then(SeenOne(c))
  {
    assert [a, b, c][..2] == [a, b];
    SeenInTwo(a, b);
  }

  lemma AnswerSeen(m: Message, id: Option<NonZeroU16>, waiting: Option<Message>, quota: nat, level: ProtocolLevel)
    requires m.qos != AtMostOnce ==> id.Some?
    ensures SeenIn(Answer(m, id, waiting, quota, level)) ==
      Seen(
        if m.qos == ExactlyOnce then [] else [m],
        if m.qos == AtLeastOnce then [id.value] else [],
        if m.retain then [m] else [])
  {
    var first, all := Retain(m), Answer(m, id, waiting, quota, level);
    match m.qos {
      case AtMostOnce =>
        SeenInOne(Deliver(m));
        SeenInTwo(first, Deliver(m));
        assert m.retain ==> all == [first, Deliver(m)];
        assert !m.retain ==> all == [Deliver(m)];
      case AtLeastOnce =>
        var ack := Send(PubAck(id.value));
        SeenInTwo(Deliver(m), ack);
        SeenInThree(first, Deliver(m), ack);
        assert m.retain ==> all == [first, Deliver(m), ack];
        assert !m.retain ==> all == [Deliver(m), ack];
      case ExactlyOnce =>
        SeenInOne(first);
        SeenInOne(Send(PubRec(id.value, false)));
        SeenInOne(Send(PubRec(id.value, true)));
        SeenInTwo(first, Send(PubRec(id.value, false)));
        SeenInTwo(first, Send(PubRec(id.value, true)));
        assert all == [] || all == [first] || (exists inUse :: all == [Send(PubRec(id.value, inUse))] && !m.retain) ||
               (exists inUse :: all == [first, Send(PubRec(id.value, inUse))]);
    }
  }

  lemma {:induction false} NothingSeen(effects: seq<Effect>)
    requires forall e <- effects :: SeenOne(e) == NOTHING_SEEN
    ensures SeenIn(effects) == NOTHING_SEEN
  {
    if effects != [] {
      NothingSeen(effects[..|effects| - 1]);
    }
  }

  lemma {:induction false} DrainSeesNothing(c: Conn, msgs: seq<Message>, now: nat)
    ensures forall e <- DeliveAll(c, msgs, now).1 :: SeenOne(e) == NOTHING_SEEN
  {
    if msgs != [] {
      DrainSeesNothing(c, msgs[..|msgs| - 1], now);
    }
  }

  lemma NotifiedSeesNothing(c: Conn, now: nat)
    ensures forall e <- OnNotified(c, now).1 :: SeenOne(e) == NOTHING_SEEN
  {
    if c.clientId.Some? && c.receiveOutQuota > 0 {
      var n := Batch(c.queue, Some(c.receiveOutQuota));
      DrainSeesNothing(c.(queue := c.queue[n..]), c.queue[..n], now);
    }
  }

  lemma OthersSeeNothing(t: State, input: Input)
    requires InboundOk(t) && !input.GetPublish?
    ensures SeenIn(Handle(t.conn, input).1) == NOTHING_SEEN
  {
    hide OnNotified, SeenIn;
    match input
    case GetPubComp(id, now) =>
      NothingSeen([]);
      if t.conn.inflight != [] {
        NotifiedSeesNothing(Completed(t.conn, id), now);
        NothingSeen(OnNotified(Completed(t.conn, id), now).1);
      }
    case Notified(now) =>
      NotifiedSeesNothing(t.conn, now);
      NothingSeen(OnNotified(t.conn, now).1);
    case _ => NothingSeen(Handle(t.conn, input).1);
  }

  lemma PublishSeen(t: State, client: Text, inputs: seq<Input>, p: Publish, env: Env)
    requires AllOk(t) && Fresh(t, client)
    ensures SeenIn(OnPublish(Run(t, inputs).conn, p, env).1) == DueFor(inputs, p, env, client)
  {
    assert Acceptable(p, env) && p.qos != AtMostOnce ==> p.packetId.Some?;
    hide Run, OnPublish, Awaited, Acceptable, TopicOf, AllOk, Answer, SeenIn;
    PublishAnswered(t, client, inputs, p, env);
    NothingSeen([]);
    if Taken(inputs, p, env) {
      var c := Run(t, inputs).conn;
      var waiting := if p.packetId.Some? then Awaited(t, inputs, p.packetId.value) else None;
      AnswerSeen(MessageOf(inputs, p, env, client), p.packetId, waiting, c.receiveInQuota, c.level);
    }
  }

  /** Over every run of a fresh connection: the messages fanned out at QoS 0 and 1 are those of the
      packets that were taken, in their order; those at QoS 1 are acknowledged, in their order; and the
      messages retained are those whose packets ask for it. */
  lemma {:induction false} RunSeen(t: State, client: Text, inputs: seq<Input>)
    requires AllOk(t) && Fresh(t, client)
    ensures SeenOver(t, inputs) == Due(client, inputs)
  {
    hide OnPublish, DueFor, SeenIn, AllOk, Fresh, Record;
    if inputs != [] {
      var n := |inputs| - 1;
      RunSeen(t, client, inputs[..n]);
      if inputs[n].GetPublish? {
        PublishSeen(t, client, inputs[..n], inputs[n].publish, inputs[n].env);
      } else {
        RunInboundOk(t, inputs[..n]);
        OthersSeeNothing(Run(t, inputs[..n]), inputs[n]);
      }
    }
  }

  lemma RunInboundOk(t: State, inputs: seq<Input>)
    requires AllOk(t)
    ensures InboundOk(Run(t, inputs))
  {
    hide Run, InboundOk, OutboundOk, QueueOk;
    RunKeeps(t, inputs);
  }
}
