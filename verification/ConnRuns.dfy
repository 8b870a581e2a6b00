/** Runs of one connection, with other connections adding to its session's queue in between, and the
    ledgers that every such run keeps in balance. */
module ConnRuns {
  import opened Types
  import opened Seqs
  import opened Messages
  import opened PacketIds
  import opened StoreSpec
  import opened ConnSpec

  datatype Input =
    | GetPublish(publish: Publish, env: Env)
    | GetPubAck(id: NonZeroU16)
    | GetPubRec(id: NonZeroU16, success: bool)
    | GetPubRel(id: NonZeroU16, success: bool)
    | GetPubComp(id: NonZeroU16, now: nat)
    | Notified(now: nat)
    | Enqueue(msgs: seq<Message>)

  function Handle(c: Conn, input: Input): Handled {
    match input
    case GetPublish(publish, env) => OnPublish(c, publish, env)
    case GetPubAck(id) => OnPubAck(c, id)
    case GetPubRec(id, success) => OnPubRec(c, id, success)
    case GetPubRel(id, success) => OnPubRel(c, id, success)
    case GetPubComp(id, now) => OnPubComp(c, id, now)
    case Notified(now) => var (c', effects) := OnNotified(c, now); (c', effects, Continue)
    case Enqueue(msgs) => (c.(queue := c.queue + msgs), [], Continue)
  }

  /** What is seen of a run from outside: QoS 2 messages accepted (a successful PUBREC), fanned out
      (at a PUBREL) and discarded (by a failing PUBREL), by packet identifier; failing PUBRECs that
      released a packet; messages that entered the queue and left it, with the time; and the packets
      that went out for them. */
  datatype Ledger = Ledger(
    accepted: multiset<NonZeroU16>,
    completed: multiset<NonZeroU16>,
    discarded: multiset<NonZeroU16>,
    leaked: nat,
    enqueued: seq<Message>,
    handled: seq<(Message, nat)>,
    sent: seq<Publish>)

  datatype State = State(conn: Conn, ledger: Ledger)

  function AcceptedIn(effects: seq<Effect>): multiset<NonZeroU16> {
    if effects == [] then multiset{}
    else
      var e := effects[|effects| - 1];
      AcceptedIn(effects[..|effects| - 1]) +
      if e.Send? && e.packet.PubRec? && !e.packet.inUse then multiset{e.packet.id} else multiset{}
  }

  function DeliveredIn(effects: seq<Effect>): nat {
    if effects == [] then 0
    else DeliveredIn(effects[..|effects| - 1]) + if effects[|effects| - 1].Deliver? then 1 else 0
  }

  /** The PUBLISH packets, without the identifiers they were given. */
  function PublishesIn(effects: seq<Effect>): seq<Publish> {
    if effects == [] then []
    else
      var e := effects[|effects| - 1];
      PublishesIn(effects[..|effects| - 1]) +
      if e.Send? && e.packet.SendPublish? then [e.packet.publish.(packetId := None)] else []
  }

  function Times(id: NonZeroU16, n: nat): multiset<NonZeroU16> {
    multiset{}[id := n]
  }

  /** The messages a step took from the queue. */
  function Taken(before: seq<Message>, after: seq<Message>, now: nat): seq<(Message, nat)> {
    if |after| < |before| then Stamped(before[..|before| - |after|], now) else []
  }

  function Stamped(msgs: seq<Message>, now: nat): (r: seq<(Message, nat)>)
    ensures |r| == |msgs|
  {
    seq(|msgs|, i requires 0 <= i < |msgs| => (msgs[i], now))
  }

  function Record(t: State, input: Input): Ledger {
    var (c, effects, outcome) := Handle(t.conn, input);
    var now := match input case GetPubComp(_, now) => now case Notified(now) => now case _ => 0;
    Ledger(
      t.ledger.accepted + AcceptedIn(effects),
      t.ledger.completed + (if input.GetPubRel? then Times(input.id, DeliveredIn(effects)) else multiset{}),
      t.ledger.discarded +
        (if input.GetPubRel? && !input.success && |c.uncompleted| < |t.conn.uncompleted| then multiset{input.id}
         else multiset{}),
      t.ledger.leaked + (if input.GetPubRec? && !input.success && outcome == Continue then 1 else 0),
      t.ledger.enqueued + (if input.Enqueue? then input.msgs else []),
      t.ledger.handled + (if input.Enqueue? then [] else Taken(t.conn.queue, c.queue, now)),
      t.ledger.sent + PublishesIn(effects))
  }

  function Step(t: State, input: Input): State {
    State(Handle(t.conn, input).0, Record(t, input))
  }

  function Start(c: Conn): State {
    State(c, Ledger(multiset{}, multiset{}, multiset{}, 0, c.queue, [], []))
  }

  // ----- what is kept -----

  /** Inbound: as many messages were accepted under an identifier as were fanned out, discarded or are
      still held under it (module Qos2Runs has which messages); and the quota is what is left of the
      maximum, where a failing PUBREL gives nothing back. */
  ghost predicate InboundOk(t: State) {
    && t.conn.receiveInMax <= 0xFFFF
    && t.conn.receiveInQuota + |t.conn.uncompleted| + |t.ledger.discarded| == t.conn.receiveInMax
    && (forall id: NonZeroU16 ::
          t.ledger.accepted[id] ==
          t.ledger.completed[id] + t.ledger.discarded[id] + if id in t.conn.uncompleted then 1 else 0)
    && (forall id | id in t.conn.uncompleted :: t.conn.uncompleted[id].qos == ExactlyOnce)
  }

  /** Outbound: the quota, what is in flight and what failing PUBRECs cost make up the maximum. */
  ghost predicate OutboundOk(t: State) {
    && t.conn.receiveOutMax <= USIZE_MAX
    && t.conn.receiveOutQuota + |t.conn.inflight| + t.ledger.leaked == t.conn.receiveOutMax
  }

  /** The packets for messages taken from the queue, without those that had expired. */
  function Outgoing(handled: seq<(Message, nat)>): seq<Publish> {
    if handled == [] then []
    else
      var (m, now) := handled[|handled| - 1];
      Outgoing(handled[..|handled| - 1]) +
      if m.IsExpired(now) || m.ToPublish(now).None? then [] else [m.ToPublish(now).value]
  }

  function Contents(handled: seq<(Message, nat)>): (r: seq<Message>)
    ensures |r| == |handled|
  {
    seq(|handled|, i requires 0 <= i < |handled| => handled[i].0)
  }

  /** Queue: what entered is what left, then what is there; and what left went out, in order, unless
      it had expired. */
  ghost predicate QueueOk(t: State) {
    && t.ledger.enqueued == Contents(t.ledger.handled) + t.conn.queue
    && t.ledger.sent == Outgoing(t.ledger.handled)
  }

  function IdsOf(inflight: seq<Publish>): (r: seq<Option<NonZeroU16>>)
    ensures |r| == |inflight|
  {
    seq(|inflight|, i requires 0 <= i < |inflight| => inflight[i].packetId)
  }

  /** Identifiers in flight run without a gap up to the one handed out last. */
  ghost predicate WindowOk(t: State) {
    Window(IdsOf(t.conn.inflight), t.conn.nextId)
  }

  // ----- draining the queue -----

  /** What a drain leaves alone. */
  ghost predicate OnlyOutbound(c: Conn, c': Conn) {
    c'.(receiveOutQuota := c.receiveOutQuota, nextId := c.nextId, qos2 := c.qos2, inflight := c.inflight) == c
  }

  lemma DeliveKeeps(c: Conn, msg: Message, now: nat)
    requires 0 < c.receiveOutQuota <= USIZE_MAX
    ensures var (c', effects) := Delive(c, msg, now);
            && OnlyOutbound(c, c')
            && c'.receiveOutQuota + |c'.inflight| == c.receiveOutQuota + |c.inflight|
            && c.receiveOutQuota - 1 <= c'.receiveOutQuota <= c.receiveOutQuota
            && (Window(IdsOf(c.inflight), c.nextId) ==> Window(IdsOf(c'.inflight), c'.nextId))
            && PublishesIn(effects) == OptionSeq(msg.ToPublish(now))
            && AcceptedIn(effects) == multiset{} && DeliveredIn(effects) == 0
  {
    if msg.ToPublish(now).Some? {
      var publish := msg.ToPublish(now).value;
      var (c', effects) := Delive(c, msg, now);
      assert effects[..0] == [];
      if publish.qos != AtMostOnce && Window(IdsOf(c.inflight), c.nextId) {
        WindowTaken(IdsOf(c.inflight), c.nextId);
        assert IdsOf(c'.inflight) == IdsOf(c.inflight) + [Some(c.nextId)];
      }
    }
  }

  lemma {:induction false} EffectsConcat(a: seq<Effect>, b: seq<Effect>)
    ensures PublishesIn(a + b) == PublishesIn(a) + PublishesIn(b)
    ensures AcceptedIn(a + b) == AcceptedIn(a) + AcceptedIn(b)
    ensures DeliveredIn(a + b) == DeliveredIn(a) + DeliveredIn(b)
  {
    if b == [] {
      assert a + b == a;
    } else {
      assert (a + b)[..|a + b| - 1] == a + b[..|b| - 1];
      EffectsConcat(a, b[..|b| - 1]);
    }
  }

  lemma {:induction false} DeliveAllKeeps(c: Conn, msgs: seq<Message>, now: nat)
    requires |msgs| <= c.receiveOutQuota <= USIZE_MAX
    ensures var (c', effects) := DeliveAll(c, msgs, now);
            && OnlyOutbound(c, c')
            && c'.receiveOutQuota + |c'.inflight| == c.receiveOutQuota + |c.inflight|
            && c.receiveOutQuota - |msgs| <= c'.receiveOutQuota <= c.receiveOutQuota
            && (Window(IdsOf(c.inflight), c.nextId) ==> Window(IdsOf(c'.inflight), c'.nextId))
            && PublishesIn(effects) == Outgoing(Stamped(msgs, now))
            && AcceptedIn(effects) == multiset{} && DeliveredIn(effects) == 0
  {
    if msgs != [] {
      var rest, msg := msgs[..|msgs| - 1], msgs[|msgs| - 1];
      DeliveAllKeeps(c, rest, now);
      assert Stamped(msgs, now)[..|rest|] == Stamped(rest, now);
      if !msg.IsExpired(now) {
        var (c', effects) := DeliveAll(c, rest, now);
        DeliveKeeps(c', msg, now);
        EffectsConcat(effects, Delive(c', msg, now).1);
      }
    }
  }

  /** A drain: the quota is never exceeded, and the oldest messages leave, in order. */
  lemma NotifiedKeeps(c: Conn, now: nat)
    requires c.receiveOutQuota <= USIZE_MAX
    ensures var (c', effects) := OnNotified(c, now);
            && c'.receiveOutQuota + |c'.inflight| == c.receiveOutQuota + |c.inflight|
            && (Window(IdsOf(c.inflight), c.nextId) ==> Window(IdsOf(c'.inflight), c'.nextId))
            && |c'.queue| <= |c.queue| && c.queue == Contents(Taken(c.queue, c'.queue, now)) + c'.queue
            && PublishesIn(effects) == Outgoing(Taken(c.queue, c'.queue, now))
            && AcceptedIn(effects) == multiset{} && DeliveredIn(effects) == 0
            && OnlyOutbound(c.(queue := c'.queue), c')
  {
    if c.clientId.Some? && c.receiveOutQuota > 0 {
      var n := Batch(c.queue, Some(c.receiveOutQuota));
      DeliveAllKeeps(c.(queue := c.queue[n..]), c.queue[..n], now);
      assert c.queue == c.queue[..n] + c.queue[n..];
      assert Contents(Stamped(c.queue[..n], now)) == c.queue[..n];
      if n == 0 {
        assert Stamped(c.queue[..n], now) == [];
      }
    }
  }

  // ----- every step -----

  ghost predicate AllOk(t: State) {
    InboundOk(t) && OutboundOk(t) && QueueOk(t)
  }

  lemma NothingMore(t: State)
    ensures t.ledger.handled + [] == t.ledger.handled
    ensures t.ledger.sent + [] == t.ledger.sent && t.ledger.enqueued + [] == t.ledger.enqueued
    ensures Taken(t.conn.queue, t.conn.queue, 0) == []
  {
  }

  /** A step that leaves the queue alone. */
  lemma QueueUntouched(t: State, t': State)
    requires QueueOk(t) && t'.conn.queue == t.conn.queue
    requires t'.ledger.handled == t.ledger.handled + [] && t'.ledger.sent == t.ledger.sent + []
    requires t'.ledger.enqueued == t.ledger.enqueued + []
    ensures QueueOk(t')
  {
    NothingMore(t);
  }

  lemma EffectsOne(e: Effect)
    ensures PublishesIn([e]) == if e.Send? && e.packet.SendPublish? then [e.packet.publish.(packetId := None)] else []
    ensures AcceptedIn([e]) ==
            if e.Send? && e.packet.PubRec? && !e.packet.inUse then multiset{e.packet.id} else multiset{}
    ensures DeliveredIn([e]) == if e.Deliver? then 1 else 0
  {
    assert [e][..0] == [];
  }

  lemma EffectsTwo(a: Effect, b: Effect)
    ensures PublishesIn([a, b]) == PublishesIn([a]) + PublishesIn([b])
    ensures AcceptedIn([a, b]) == AcceptedIn([a]) + AcceptedIn([b])
    ensures DeliveredIn([a, b]) == DeliveredIn([a]) + DeliveredIn([b])
  {
    assert [a, b] == [a] + [b];
    EffectsConcat([a], [b]);
  }

  /** How the messages held before a PUBLISH and after it differ, and what was accepted. */
  ghost predicate Holds(c: Conn, c': Conn, effects: seq<Effect>) {
    && PublishesIn(effects) == []
    && c'.receiveInQuota + |c'.uncompleted| == c.receiveInQuota + |c.uncompleted|
    && (forall i: NonZeroU16 :: AcceptedIn(effects)[i] + (if i in c.uncompleted then 1 else 0) ==
                                if i in c'.uncompleted then 1 else 0)
    && (forall i | i in c'.uncompleted ::
          (i in c.uncompleted && c'.uncompleted[i] == c.uncompleted[i]) || c'.uncompleted[i].qos == ExactlyOnce)
  }

  lemma AcceptAtOnce(c: Conn, msg: Message, id: Option<NonZeroU16>)
    requires msg.qos == AtMostOnce || (msg.qos == AtLeastOnce && id.Some?)
    ensures Accept(c, msg, id).0 == c && Holds(c, c, Accept(c, msg, id).1)
  {
    EffectsOne(Deliver(msg));
    if msg.qos == AtLeastOnce {
      EffectsOne(Send(PubAck(id.value)));
      EffectsTwo(Deliver(msg), Send(PubAck(id.value)));
    }
  }

  lemma AcceptKeeps(c: Conn, msg: Message, id: Option<NonZeroU16>)
    requires msg.qos != AtMostOnce ==> id.Some?
    requires c.receiveInQuota <= USIZE_MAX
    ensures var (c', effects, outcome) := Accept(c, msg, id);
            && c'.(receiveInQuota := c.receiveInQuota, uncompleted := c.uncompleted) == c
            && Holds(c, c', effects)
            && (msg.qos == ExactlyOnce ==> DeliveredIn(effects) == 0)
  {
    if msg.qos == ExactlyOnce {
      AcceptHeld(c, msg, id.value);
    } else {
      AcceptAtOnce(c, msg, id);
    }
  }

  lemma AcceptHeld(c: Conn, msg: Message, id: NonZeroU16)
    requires msg.qos == ExactlyOnce && c.receiveInQuota <= USIZE_MAX
    ensures var (c', effects, outcome) := Accept(c, msg, Some(id));
            && c'.(receiveInQuota := c.receiveInQuota, uncompleted := c.uncompleted) == c
            && Holds(c, c', effects) && DeliveredIn(effects) == 0
  {
    Overwritten(c.uncompleted, id, msg);
    if id in c.uncompleted {
      EffectsOne(Send(PubRec(id, true)));
    } else {
      EffectsOne(Send(PubRec(id, false)));
    }
  }

  lemma Overwritten(m: map<NonZeroU16, Message>, id: NonZeroU16, msg: Message)
    ensures |m[id := msg]| == |m| + if id in m then 0 else 1
  {
    var after := m[id := msg];
    assert after.Keys == m.Keys + {id};
    assert |after| == |after.Keys| && |m| == |m.Keys|;
  }

  lemma RetainFirst(msg: Message, retain: bool, effects: seq<Effect>)
    ensures var all := (if retain then [Retain(msg)] else []) + effects;
            && PublishesIn(all) == PublishesIn(effects)
            && AcceptedIn(all) == AcceptedIn(effects)
            && DeliveredIn(all) == DeliveredIn(effects)
  {
    EffectsOne(Retain(msg));
    EffectsConcat(if retain then [Retain(msg)] else [], effects);
  }

  lemma HoldsToo(a: Conn, b: Conn, c': Conn, effects: seq<Effect>, others: seq<Effect>)
    requires Holds(a, c', effects) && a.receiveInQuota == b.receiveInQuota && a.uncompleted == b.uncompleted
    requires PublishesIn(others) == PublishesIn(effects) && AcceptedIn(others) == AcceptedIn(effects)
    requires DeliveredIn(others) == DeliveredIn(effects)
    ensures Holds(b, c', others)
  {
    hide PublishesIn, AcceptedIn, DeliveredIn;
  }

  lemma AcceptAndRetain(c: Conn, msg: Message, id: Option<NonZeroU16>, aliases: map<NonZeroU16, Text>, retain: bool)
    requires msg.qos != AtMostOnce ==> id.Some?
    requires c.receiveInQuota <= USIZE_MAX
    ensures var (c', effects, outcome) := Accept(c.(topicAlias := aliases), msg, id);
            var all := (if retain then [Retain(msg)] else []) + effects;
            && c'.(receiveInQuota := c.receiveInQuota, uncompleted := c.uncompleted, topicAlias := c.topicAlias) == c
            && Holds(c, c', all)
            && (msg.qos == ExactlyOnce ==> DeliveredIn(all) == 0)
  {
    var aliased := c.(topicAlias := aliases);
    AcceptKeeps(aliased, msg, id);
    var (c', effects, outcome) := Accept(aliased, msg, id);
    assert c'.(receiveInQuota := c.receiveInQuota, uncompleted := c.uncompleted, topicAlias := c.topicAlias) == c;
    hide Accept, AcceptedIn, PublishesIn, DeliveredIn, Holds;
    RetainFirst(msg, retain, effects);
    HoldsToo(aliased, c, c', effects, (if retain then [Retain(msg)] else []) + effects);
  }

  /** A PUBLISH changes the aliases and what is held, and sends no PUBLISH. */
  lemma PublishEffects(c: Conn, publish: Publish, env: Env)
    requires c.receiveInQuota <= USIZE_MAX
    ensures var (c', effects, outcome) := OnPublish(c, publish, env);
            && c'.(receiveInQuota := c.receiveInQuota, uncompleted := c.uncompleted, topicAlias := c.topicAlias) == c
            && Holds(c, c', effects)
            && (publish.qos == ExactlyOnce ==> DeliveredIn(effects) == 0)
  {
    if c.clientId.Some? && CheckPublish(publish, env).None? && ResolveTopic(c.topicAlias, publish).Some? {
      var (topic, aliases) := ResolveTopic(c.topicAlias, publish).value;
      if env.allows(topic) {
        var msg := FromPublish(publish.(topic := env.rewrite(topic)), c.clientId.value, env.uid, env.now);
        AcceptAndRetain(c, msg, publish.packetId, aliases, publish.retain);
        hide Accept, Holds;
      }
    }
  }

  lemma PublishKeeps(t: State, publish: Publish, env: Env)
    requires AllOk(t)
    ensures AllOk(Step(t, GetPublish(publish, env))) && (WindowOk(t) ==> WindowOk(Step(t, GetPublish(publish, env))))
  {
    var t' := Step(t, GetPublish(publish, env));
    PublishEffects(t.conn, publish, env);
    QueueUntouched(t, t');
    assert InboundOk(t');
  }

  /** A PUBREL of a held message lets it go; any other changes nothing. */
  lemma PubRelEffects(c: Conn, id: NonZeroU16, success: bool)
    ensures var (c', effects, outcome) := OnPubRel(c, id, success);
            var held := c.clientId.Some? && id in c.uncompleted;
            && AcceptedIn(effects) == multiset{} && PublishesIn(effects) == []
            && DeliveredIn(effects) == (if held && success then 1 else 0)
            && c' == (if held then
                        c.(uncompleted := c.uncompleted - {id},
                           receiveInQuota := c.receiveInQuota + if success then 1 else 0)
                      else c)
            && (held ==> |c'.uncompleted| == |c.uncompleted| - 1)
  {
    var a, b := if id in c.uncompleted then Deliver(c.uncompleted[id]) else Send(PubComp(id, false)), Send(PubComp(id, true));
    EffectsOne(a);
    EffectsOne(b);
    EffectsTwo(a, b);
    EffectsOne(Send(PubComp(id, false)));
    if id in c.uncompleted {
      assert (c.uncompleted - {id}).Keys == c.uncompleted.Keys - {id};
      assert |c.uncompleted - {id}| == |(c.uncompleted - {id}).Keys|;
    }
  }

  lemma PubRelKeeps(t: State, id: NonZeroU16, success: bool)
    requires AllOk(t)
    ensures AllOk(Step(t, GetPubRel(id, success))) && (WindowOk(t) ==> WindowOk(Step(t, GetPubRel(id, success))))
  {
    var t' := Step(t, GetPubRel(id, success));
    PubRelEffects(t.conn, id, success);
    QueueUntouched(t, t');
    assert InboundOk(t');
  }

  lemma ReleasedIds(c: Conn)
    requires c.inflight != [] && Window(IdsOf(c.inflight), c.nextId)
    ensures Window(IdsOf(c.inflight[1..]), c.nextId)
  {
    WindowReleased(IdsOf(c.inflight), c.nextId);
    assert IdsOf(c.inflight[1..]) == IdsOf(c.inflight)[1..];
  }

  lemma PubAckKeeps(t: State, id: NonZeroU16)
    requires AllOk(t)
    ensures AllOk(Step(t, GetPubAck(id))) && (WindowOk(t) ==> WindowOk(Step(t, GetPubAck(id))))
  {
    QueueUntouched(t, Step(t, GetPubAck(id)));
    if t.conn.inflight != [] && WindowOk(t) {
      ReleasedIds(t.conn);
    }
  }

  lemma PubRecEffects(c: Conn, id: NonZeroU16, success: bool)
    ensures var (c', effects, outcome) := OnPubRec(c, id, success);
            && AcceptedIn(effects) == multiset{} && PublishesIn(effects) == []
            && c'.(qos2 := c.qos2, inflight := c.inflight) == c
            && (if !success && outcome == Continue then c.inflight != [] && c'.inflight == c.inflight[1..]
                else c'.inflight == c.inflight)
  {
    EffectsOne(Send(PubRel(id, true)));
    EffectsOne(Send(PubRel(id, false)));
  }

  lemma PubRecKeeps(t: State, id: NonZeroU16, success: bool)
    requires AllOk(t)
    ensures AllOk(Step(t, GetPubRec(id, success))) && (WindowOk(t) ==> WindowOk(Step(t, GetPubRec(id, success))))
  {
    var t' := Step(t, GetPubRec(id, success));
    PubRecEffects(t.conn, id, success);
    QueueUntouched(t, t');
    if t.conn.inflight != [] && WindowOk(t) {
      ReleasedIds(t.conn);
    }
  }

  lemma {:induction false} OutgoingConcat(a: seq<(Message, nat)>, b: seq<(Message, nat)>)
    ensures Outgoing(a + b) == Outgoing(a) + Outgoing(b)
    ensures Contents(a + b) == Contents(a) + Contents(b)
  {
    if b == [] {
      assert a + b == a;
    } else {
      assert (a + b)[..|a + b| - 1] == a + b[..|b| - 1];
      OutgoingConcat(a, b[..|b| - 1]);
    }
  }

  /** The queue after a drain. */
  lemma DrainQueue(t: State, t': State, c: Conn, now: nat)
    requires QueueOk(t) && c.receiveOutQuota <= USIZE_MAX && c.queue == t.conn.queue
    requires t'.conn == OnNotified(c, now).0 && t'.ledger.enqueued == t.ledger.enqueued + []
    requires t'.ledger.handled == t.ledger.handled + Taken(c.queue, t'.conn.queue, now)
    requires t'.ledger.sent == t.ledger.sent + PublishesIn(OnNotified(c, now).1)
    ensures QueueOk(t')
  {
    NotifiedKeeps(c, now);
    NothingMore(t);
    var taken := Taken(c.queue, t'.conn.queue, now);
    OutgoingConcat(t.ledger.handled, taken);
    Associative(Contents(t.ledger.handled), Contents(taken), t'.conn.queue);
  }

  lemma NotifiedInputKeeps(t: State, now: nat)
    requires AllOk(t)
    ensures AllOk(Step(t, Notified(now))) && (WindowOk(t) ==> WindowOk(Step(t, Notified(now))))
  {
    var t' := Step(t, Notified(now));
    NotifiedKeeps(t.conn, now);
    DrainQueue(t, t', t.conn, now);
    assert InboundOk(t');
  }

  /** The connection just before the drain that a PUBCOMP sets off. */
  function Completed(c: Conn, id: NonZeroU16): Conn
    requires c.inflight != []
  {
    Release(c.(qos2 := c.qos2 - {id})).(receiveOutQuota := c.receiveOutQuota + 1)
  }

  lemma PubCompKeeps(t: State, id: NonZeroU16, now: nat)
    requires AllOk(t)
    ensures AllOk(Step(t, GetPubComp(id, now))) && (WindowOk(t) ==> WindowOk(Step(t, GetPubComp(id, now))))
  {
    var c, t' := t.conn, Step(t, GetPubComp(id, now));
    if c.clientId.Some? && id in c.qos2 && c.qos2[id] == Recorded && FrontInflight(c.inflight, id).Some? {
      if WindowOk(t) {
        ReleasedIds(c);
      }
      NotifiedKeeps(Completed(c, id), now);
      DrainQueue(t, t', Completed(c, id), now);
      assert InboundOk(t');
    } else {
      QueueUntouched(t, t');
    }
  }

  lemma EnqueueKeeps(t: State, msgs: seq<Message>)
    requires AllOk(t)
    ensures AllOk(Step(t, Enqueue(msgs))) && (WindowOk(t) ==> WindowOk(Step(t, Enqueue(msgs))))
  {
    NothingMore(t);
    assert Contents(t.ledger.handled) + t.conn.queue + msgs == Contents(t.ledger.handled) + (t.conn.queue + msgs);
  }

  /** Every step of a connection keeps its ledgers in balance. */
  lemma StepKeeps(t: State, input: Input)
    requires AllOk(t)
    ensures AllOk(Step(t, input)) && (WindowOk(t) ==> WindowOk(Step(t, input)))
  {
    match input
    case GetPublish(publish, env) => PublishKeeps(t, publish, env);
    case GetPubAck(id) => PubAckKeeps(t, id);
    case GetPubRec(id, success) => PubRecKeeps(t, id, success);
    case GetPubRel(id, success) => PubRelKeeps(t, id, success);
    case GetPubComp(id, now) => PubCompKeeps(t, id, now);
    case Notified(now) => NotifiedInputKeeps(t, now);
    case Enqueue(msgs) => EnqueueKeeps(t, msgs);
  }

  function Run(t: State, inputs: seq<Input>): State {
    if inputs == [] then t else Step(Run(t, inputs[..|inputs| - 1]), inputs[|inputs| - 1])
  }

  /** The state in which a connection starts on a session. */
  function Opened(level: ProtocolLevel, id: Text, inMax: u16, receiveMax: Option<u16>, queue: seq<Message>,
                  inflight: seq<Publish>): State {
    Start(Open(level, id, inMax, receiveMax, queue, inflight).0)
  }

  /** The quota a connection starts with accounts for what is in flight exactly when that is no more
      than the maximum the client asked for; otherwise the subtraction wraps round. */
  lemma OpenedOutboundIff(level: ProtocolLevel, id: Text, inMax: u16, receiveMax: Option<u16>, queue: seq<Message>,
                          inflight: seq<Publish>)
    ensures OutboundOk(Opened(level, id, inMax, receiveMax, queue, inflight)) <==>
            |inflight| <= ReceiveOutMax(receiveMax)
  {
  }

  lemma OpenedOk(level: ProtocolLevel, id: Text, inMax: u16, receiveMax: Option<u16>, queue: seq<Message>,
                 inflight: seq<Publish>)
    requires |inflight| <= ReceiveOutMax(receiveMax)
    ensures var t := Opened(level, id, inMax, receiveMax, queue, inflight);
            AllOk(t) && (inflight == [] ==> WindowOk(t))
  {
  }

  /** Over every run. */
  lemma {:induction false} RunKeeps(t: State, inputs: seq<Input>)
    requires AllOk(t)
    ensures AllOk(Run(t, inputs)) && (WindowOk(t) ==> WindowOk(Run(t, inputs)))
  {
    if inputs != [] {
      RunKeeps(t, inputs[..|inputs| - 1]);
      StepKeeps(Run(t, inputs[..|inputs| - 1]), inputs[|inputs| - 1]);
    }
  }

  // ----- what follows -----

  lemma {:induction false} DeliverIsCounted(effects: seq<Effect>, msg: Message)
    requires Effect.Deliver(msg) in effects
    ensures DeliveredIn(effects) > 0
  {
    var rest := effects[..|effects| - 1];
    assert effects == rest + [effects[|effects| - 1]];
    if Effect.Deliver(msg) in rest {
      DeliverIsCounted(rest, msg);
    }
  }

  /** A QoS 2 message is fanned out at a PUBREL of its identifier and at no other step, and then it
      is the message held under it, which is held no more. */
  lemma Qos2AtReleaseOnly(t: State, input: Input, msg: Message)
    requires AllOk(t) && msg.qos == ExactlyOnce
    ensures Effect.Deliver(msg) in Handle(t.conn, input).1 ==>
              && input.GetPubRel? && input.success
              && input.id in t.conn.uncompleted && t.conn.uncompleted[input.id] == msg
              && input.id !in Step(t, input).conn.uncompleted
  {
    var effects := Handle(t.conn, input).1;
    if Effect.Deliver(msg) in effects {
      DeliverIsCounted(effects, msg);
      match input
      case GetPublish(publish, env) =>
        PublishEffects(t.conn, publish, env);
        PublishDelivers(t.conn, publish, env, msg);
      case GetPubRel(id, success) => PubRelEffects(t.conn, id, success);
      case _ => NothingDelivered(t, input);
    }
  }

  lemma NothingDelivered(t: State, input: Input)
    requires AllOk(t) && !input.GetPublish? && !input.GetPubRel?
    ensures DeliveredIn(Handle(t.conn, input).1) == 0
  {
    match input
    case GetPubRec(id, success) => PubRecEffects(t.conn, id, success);
    case GetPubComp(id, now) => NothingDeliveredAtPubComp(t.conn, id, now);
    case Notified(now) => NotifiedKeeps(t.conn, now);
    case GetPubAck(_) =>
    case Enqueue(_) =>
  }

  lemma NothingDeliveredAtPubComp(c: Conn, id: NonZeroU16, now: nat)
    requires c.receiveOutQuota + |c.inflight| <= USIZE_MAX
    ensures DeliveredIn(OnPubComp(c, id, now).1) == 0
  {
    if c.inflight != [] {
      NotifiedKeeps(Completed(c, id), now);
    }
  }

  lemma PublishDelivers(c: Conn, publish: Publish, env: Env, msg: Message)
    requires Effect.Deliver(msg) in OnPublish(c, publish, env).1
    ensures msg.qos == publish.qos
  {
  }

  lemma StepMaximum(t: State, input: Input)
    requires AllOk(t)
    ensures Step(t, input).conn.receiveOutMax == t.conn.receiveOutMax
  {
    match input
    case GetPublish(publish, env) => PublishEffects(t.conn, publish, env);
    case GetPubComp(id, now) =>
      if t.conn.inflight != [] {
        NotifiedKeeps(Completed(t.conn, id), now);
      }
    case Notified(now) => NotifiedKeeps(t.conn, now);
    case _ =>
  }

  lemma {:induction false} RunMaximum(t: State, inputs: seq<Input>)
    requires AllOk(t)
    ensures Run(t, inputs).conn.receiveOutMax == t.conn.receiveOutMax
  {
    if inputs != [] {
      RunKeeps(t, inputs[..|inputs| - 1]);
      RunMaximum(t, inputs[..|inputs| - 1]);
      StepMaximum(Run(t, inputs[..|inputs| - 1]), inputs[|inputs| - 1]);
    }
  }

  /** Over every run of a connection on a session with nothing in flight, the identifiers in flight
      are those handed out last, and they differ from one another exactly when there are at most
      65535 of them: always, when the client declared a Receive Maximum. */
  lemma IdentifiersInFlight(level: ProtocolLevel, id: Text, inMax: u16, receiveMax: Option<u16>, queue: seq<Message>,
                            inputs: seq<Input>)
    ensures var c := Run(Opened(level, id, inMax, receiveMax, queue, []), inputs).conn;
            && Window(IdsOf(c.inflight), c.nextId)
            && ((forall i, j | 0 <= i < j < |c.inflight| :: c.inflight[i].packetId != c.inflight[j].packetId) <==>
                |c.inflight| <= IDS)
            && (receiveMax.Some? ==> |c.inflight| <= IDS)
  {
    var t := Opened(level, id, inMax, receiveMax, queue, []);
    OpenedOk(level, id, inMax, receiveMax, queue, []);
    RunKeeps(t, inputs);
    RunMaximum(t, inputs);
    var c := Run(t, inputs).conn;
    WindowDistinctIff(IdsOf(c.inflight), c.nextId);
    assert forall i | 0 <= i < |c.inflight| :: IdsOf(c.inflight)[i] == c.inflight[i].packetId;
  }
}
