/** Which message a PUBREL fans out. A connection holds QoS 2 messages by packet identifier and puts
    a PUBLISH there before it looks whether the identifier is in use
    (libs/service/src/client_loop.rs:574-590), so a refused message replaces the accepted one. The
    ledger of this module has the messages themselves, and the theorems say exactly when the message
    that was accepted is the one that is fanned out. */
module Qos2Runs {
  import opened Types
  import opened Messages
  import opened StoreSpec
  import opened ConnSpec
  import opened ConnRuns

  type Held = (NonZeroU16, Message)

  /** The QoS 2 message that an input puts under its identifier. */
  function Stored(c: Conn, input: Input): Option<Held> {
    match input
    case GetPublish(publish, env) =>
      if c.clientId.None? || CheckPublish(publish, env).Some? || ResolveTopic(c.topicAlias, publish).None? then None
      else
        var topic := ResolveTopic(c.topicAlias, publish).value.0;
        if !env.allows(topic) || publish.qos != ExactlyOnce || c.receiveInQuota == 0 then None
        else
          Some((publish.packetId.value,
                FromPublish(publish.(topic := env.rewrite(topic)), c.clientId.value, env.uid, env.now)))
    case _ => None
  }

  /** What an input does to the messages held, and whether it was answered with success. */
  lemma StoredExact(c: Conn, input: Input)
    requires c.receiveInQuota <= USIZE_MAX && c.receiveOutQuota + |c.inflight| <= USIZE_MAX
    ensures var (c', effects, outcome) := Handle(c, input);
            var s := Stored(c, input);
            && c'.clientId == c.clientId
            && c'.uncompleted == (if s.Some? then c.uncompleted[s.value.0 := s.value.1]
                                  else if input.GetPubRel? && c.clientId.Some? then c.uncompleted - {input.id}
                                  else c.uncompleted)
            && AcceptedIn(effects) == (if s.Some? && s.value.0 !in c.uncompleted then multiset{s.value.0}
                                       else multiset{})
  {
    match input
    case GetPublish(publish, env) => PublishStores(c, publish, env);
    case GetPubRel(id, success) =>
      PubRelEffects(c, id, success);
      assert id !in c.uncompleted ==> c.uncompleted - {id} == c.uncompleted;
    case _ => NothingStored(c, input);
  }

  lemma NothingStored(c: Conn, input: Input)
    requires !input.GetPublish? && !input.GetPubRel? && c.receiveOutQuota + |c.inflight| <= USIZE_MAX
    ensures var (c', effects, outcome) := Handle(c, input);
      c'.clientId == c.clientId && c'.uncompleted == c.uncompleted && AcceptedIn(effects) == multiset{}
  {
    match input
    case GetPubRec(id, success) => PubRecEffects(c, id, success);
    case GetPubComp(id, now) => NothingStoredAtPubComp(c, id, now);
    case Notified(now) => NotifiedKeeps(c, now);
    case GetPubAck(_) =>
    case Enqueue(_) =>
  }

  lemma NothingStoredAtPubComp(c: Conn, id: NonZeroU16, now: nat)
    requires c.receiveOutQuota + |c.inflight| <= USIZE_MAX
    ensures var (c', effects, outcome) := OnPubComp(c, id, now);
      c'.clientId == c.clientId && c'.uncompleted == c.uncompleted && AcceptedIn(effects) == multiset{}
  {
    if c.inflight != [] {
      NotifiedKeeps(Completed(c, id), now);
    }
  }

  lemma PublishStores(c: Conn, publish: Publish, env: Env)
    requires c.receiveInQuota <= USIZE_MAX
    ensures var (c', effects, outcome) := OnPublish(c, publish, env);
            var s := Stored(c, GetPublish(publish, env));
            && c'.clientId == c.clientId
            && c'.uncompleted == (if s.Some? then c.uncompleted[s.value.0 := s.value.1] else c.uncompleted)
            && AcceptedIn(effects) == (if s.Some? && s.value.0 !in c.uncompleted then multiset{s.value.0}
                                       else multiset{})
  {
    if c.clientId.Some? && CheckPublish(publish, env).None? && ResolveTopic(c.topicAlias, publish).Some? {
      var (topic, aliases) := ResolveTopic(c.topicAlias, publish).value;
      if env.allows(topic) {
        var msg := FromPublish(publish.(topic := env.rewrite(topic)), c.clientId.value, env.uid, env.now);
        RetainFirst(msg, publish.retain, Accept(c.(topicAlias := aliases), msg, publish.packetId).1);
        AcceptStores(c.(topicAlias := aliases), msg, publish.packetId);
      }
    }
  }

  lemma AcceptStores(c: Conn, msg: Message, id: Option<NonZeroU16>)
    requires msg.qos != AtMostOnce ==> id.Some?
    ensures var (c', effects, outcome) := Accept(c, msg, id);
            var stored := msg.qos == ExactlyOnce && c.receiveInQuota != 0;
            && c'.clientId == c.clientId
            && c'.uncompleted == (if stored then c.uncompleted[id.value := msg] else c.uncompleted)
            && AcceptedIn(effects) == (if stored && id.value !in c.uncompleted then multiset{id.value} else multiset{})
  {
    var (c', effects, outcome) := Accept(c, msg, id);
    assert c'.clientId == c.clientId;
    if msg.qos == ExactlyOnce && c.receiveInQuota != 0 {
      assert c'.uncompleted == c.uncompleted[id.value := msg];
    } else {
      assert c' == c;
    }
    hide Accept, AcceptedIn;
    AcceptedExact(c, msg, id);
  }

  lemma AcceptedExact(c: Conn, msg: Message, id: Option<NonZeroU16>)
    requires msg.qos != AtMostOnce ==> id.Some?
    ensures AcceptedIn(Accept(c, msg, id).1) ==
            if msg.qos == ExactlyOnce && c.receiveInQuota != 0 && id.value !in c.uncompleted then multiset{id.value}
            else multiset{}
  {
    assert AcceptedIn([]) == multiset{};
    hide AcceptedIn, PublishesIn, DeliveredIn;
    if msg.qos == ExactlyOnce {
      EffectsOne(Send(PubRec(id.value, true)));
      EffectsOne(Send(PubRec(id.value, false)));
    } else {
      EffectsOne(Deliver(msg));
      if msg.qos == AtLeastOnce {
        EffectsOne(Send(PubAck(id.value)));
        EffectsTwo(Deliver(msg), Send(PubAck(id.value)));
      }
    }
  }

  // ----- the ledger of messages -----

  /** Messages with their identifiers: answered with success; refused because the identifier was in
      use, and put there all the same; overwritten by these; fanned out and discarded at a PUBREL. */
  datatype Pairs = Pairs(
    accepted: multiset<Held>,
    refused: multiset<Held>,
    replaced: multiset<Held>,
    fanned: multiset<Held>,
    discarded: multiset<Held>)

  const NO_PAIRS: Pairs := Pairs(multiset{}, multiset{}, multiset{}, multiset{}, multiset{})

  function Fanned(id: NonZeroU16, effects: seq<Effect>): multiset<Held> {
    if effects == [] then multiset{}
    else
      var e := effects[|effects| - 1];
      Fanned(id, effects[..|effects| - 1]) + if e.Deliver? then multiset{(id, e.msg)} else multiset{}
  }

  function Of(c: Conn, id: NonZeroU16): multiset<Held> {
    if id in c.uncompleted then multiset{(id, c.uncompleted[id])} else multiset{}
  }

  function Added(p: Pairs, s: Option<Held>, success: bool, replaced: multiset<Held>, fanned: multiset<Held>,
                 discarded: multiset<Held>): Pairs {
    Pairs(
      p.accepted + (if s.Some? && success then multiset{s.value} else multiset{}),
      p.refused + (if s.Some? && !success then multiset{s.value} else multiset{}),
      p.replaced + replaced,
      p.fanned + fanned,
      p.discarded + discarded)
  }

  function Observe(p: Pairs, c: Conn, input: Input): Pairs {
    var (c', effects, outcome) := Handle(c, input);
    var s := Stored(c, input);
    Added(p, s, s.Some? && s.value.0 in AcceptedIn(effects),
          if s.Some? then Of(c, s.value.0) else multiset{},
          if input.GetPubRel? then Fanned(input.id, effects) else multiset{},
          if input.GetPubRel? && !input.success && c.clientId.Some? then Of(c, input.id) else multiset{})
  }

  function Observed(t: State, inputs: seq<Input>): Pairs {
    if inputs == [] then NO_PAIRS
    else
      var n := |inputs| - 1;
      Observe(Observed(t, inputs[..n]), Run(t, inputs[..n]).conn, inputs[n])
  }

  /** Every message put under an identifier was fanned out, discarded, replaced, or is still there. */
  ghost predicate Balanced(p: Pairs, c: Conn) {
    forall id: NonZeroU16, m: Message ::
      p.accepted[(id, m)] + p.refused[(id, m)] ==
      p.fanned[(id, m)] + p.discarded[(id, m)] + p.replaced[(id, m)] + Of(c, id)[(id, m)]
  }

  lemma FannedTwo(id: NonZeroU16, a: Effect, b: Effect)
    ensures Fanned(id, [a]) == if a.Deliver? then multiset{(id, a.msg)} else multiset{}
    ensures Fanned(id, [a, b]) == Fanned(id, [a]) + Fanned(id, [b])
  {
    assert [a][..0] == [] && [b][..0] == [] && [a, b][..1] == [a];
  }

  lemma FannedAtPubRel(c: Conn, id: NonZeroU16, success: bool)
    ensures Fanned(id, OnPubRel(c, id, success).1) == if c.clientId.Some? && success then Of(c, id) else multiset{}
  {
    if id in c.uncompleted {
      FannedTwo(id, Deliver(c.uncompleted[id]), Send(PubComp(id, true)));
      FannedTwo(id, Send(PubComp(id, true)), Send(PubComp(id, true)));
    }
    FannedTwo(id, Send(PubComp(id, false)), Send(PubComp(id, false)));
  }

  /** The ledger after a message was put under an identifier. */
  lemma StoreKeeps(p: Pairs, c: Conn, p': Pairs, c': Conn, h: Held)
    requires Balanced(p, c) && c'.uncompleted == c.uncompleted[h.0 := h.1]
    requires p'.accepted + p'.refused == p.accepted + p.refused + multiset{h}
    requires p'.replaced == p.replaced + Of(c, h.0) && p'.fanned == p.fanned && p'.discarded == p.discarded
    ensures Balanced(p', c')
  {
    forall id: NonZeroU16, m: Message
      ensures p'.accepted[(id, m)] + p'.refused[(id, m)] ==
              p'.fanned[(id, m)] + p'.discarded[(id, m)] + p'.replaced[(id, m)] + Of(c', id)[(id, m)]
    {
      assert p.accepted[(id, m)] + p.refused[(id, m)] ==
             p.fanned[(id, m)] + p.discarded[(id, m)] + p.replaced[(id, m)] + Of(c, id)[(id, m)];
      hide Balanced;
      assert (p'.accepted + p'.refused)[(id, m)] == (p.accepted + p.refused + multiset{h})[(id, m)];
      StoredAt(c, c', h, id, m);
    }
  }

  lemma StoredAt(c: Conn, c': Conn, h: Held, id: NonZeroU16, m: Message)
    requires c'.uncompleted == c.uncompleted[h.0 := h.1]
    ensures Of(c', id)[(id, m)] + Of(c, h.0)[(id, m)] == Of(c, id)[(id, m)] + multiset{h}[(id, m)]
  {
  }

  /** The ledger after the message under an identifier, if there was one, has gone. */
  lemma ReleaseKeeps(p: Pairs, c: Conn, p': Pairs, c': Conn, id: NonZeroU16)
    requires Balanced(p, c) && c'.uncompleted == c.uncompleted - {id}
    requires p'.fanned + p'.discarded == p.fanned + p.discarded + Of(c, id)
    requires p'.accepted == p.accepted && p'.refused == p.refused && p'.replaced == p.replaced
    ensures Balanced(p', c')
  {
    forall i: NonZeroU16, m: Message
      ensures p'.accepted[(i, m)] + p'.refused[(i, m)] ==
              p'.fanned[(i, m)] + p'.discarded[(i, m)] + p'.replaced[(i, m)] + Of(c', i)[(i, m)]
    {
      assert p.accepted[(i, m)] + p.refused[(i, m)] ==
             p.fanned[(i, m)] + p.discarded[(i, m)] + p.replaced[(i, m)] + Of(c, i)[(i, m)];
      hide Balanced;
      assert (p'.fanned + p'.discarded)[(i, m)] == (p.fanned + p.discarded + Of(c, id))[(i, m)];
      ReleasedAt(c, c', id, i, m);
    }
  }

  lemma ReleasedAt(c: Conn, c': Conn, id: NonZeroU16, i: NonZeroU16, m: Message)
    requires c'.uncompleted == c.uncompleted - {id}
    ensures Of(c', i)[(i, m)] + Of(c, id)[(i, m)] == Of(c, i)[(i, m)]
  {
  }

  lemma ObservedStore(p: Pairs, c: Conn, input: Input)
    requires Stored(c, input).Some?
    ensures var (p', h) := (Observe(p, c, input), Stored(c, input).value);
      && p'.accepted + p'.refused == p.accepted + p.refused + multiset{h}
      && p'.replaced == p.replaced + Of(c, h.0) && p'.fanned == p.fanned && p'.discarded == p.discarded
  {
    hide Handle, AcceptedIn;
  }

  lemma ObservedRelease(p: Pairs, c: Conn, id: NonZeroU16, success: bool)
    requires c.clientId.Some?
    ensures var p' := Observe(p, c, GetPubRel(id, success));
      && p'.fanned + p'.discarded == p.fanned + p.discarded + Of(c, id)
      && p'.accepted == p.accepted && p'.refused == p.refused && p'.replaced == p.replaced
  {
    FannedAtPubRel(c, id, success);
    hide OnPubRel, Of, Fanned, AcceptedIn;
  }

  lemma ObservedNothing(p: Pairs, c: Conn, input: Input)
    requires Stored(c, input).None? && !(input.GetPubRel? && c.clientId.Some?)
    ensures Observe(p, c, input) == p
  {
    if input.GetPubRel? {
      FannedAtPubRel(c, input.id, input.success);
    }
    hide OnPubRel, AcceptedIn;
  }

  lemma ObserveKeeps(p: Pairs, c: Conn, input: Input)
    requires Balanced(p, c)
    requires c.receiveInQuota <= USIZE_MAX && c.receiveOutQuota + |c.inflight| <= USIZE_MAX
    ensures Balanced(Observe(p, c, input), Handle(c, input).0)
  {
    StoredExact(c, input);
    hide Observe, Handle, Stored, Balanced, Of;
    var p', c', s := Observe(p, c, input), Handle(c, input).0, Stored(c, input);
    if s.Some? {
      ObservedStore(p, c, input);
      StoreKeeps(p, c, p', c', s.value);
    } else if input.GetPubRel? && c.clientId.Some? {
      ObservedRelease(p, c, input.id, input.success);
      ReleaseKeeps(p, c, p', c', input.id);
    } else {
      ObservedNothing(p, c, input);
      SameHeld(p, c, c');
    }
  }

  lemma SameHeld(p: Pairs, c: Conn, c': Conn)
    requires Balanced(p, c) && c'.uncompleted == c.uncompleted
    ensures Balanced(p, c')
  {
    assert forall id :: Of(c', id) == Of(c, id);
  }

  /** Over every run that starts with no message held. */
  lemma {:induction false} RunBalanced(t: State, inputs: seq<Input>)
    requires AllOk(t) && t.conn.uncompleted == map[]
    ensures Balanced(Observed(t, inputs), Run(t, inputs).conn)
  {
    if inputs != [] {
      var n := |inputs| - 1;
      RunBalanced(t, inputs[..n]);
      RunKeeps(t, inputs[..n]);
      ObserveKeeps(Observed(t, inputs[..n]), Run(t, inputs[..n]).conn, inputs[n]);
    }
  }

  /** Over every run: each accepted message was fanned out, was discarded or is still held, if and
      only if each message that was refused because its identifier was in use was the one it replaced. */
  lemma AcceptedAccountedForIff(t: State, inputs: seq<Input>)
    requires AllOk(t) && t.conn.uncompleted == map[]
    ensures var (p, c) := (Observed(t, inputs), Run(t, inputs).conn);
      (forall id: NonZeroU16, m: Message ::
         p.accepted[(id, m)] == p.fanned[(id, m)] + p.discarded[(id, m)] + Of(c, id)[(id, m)])
      <==> p.refused == p.replaced
  {
    var (p, c) := (Observed(t, inputs), Run(t, inputs).conn);
    RunBalanced(t, inputs);
    if forall id: NonZeroU16, m: Message ::
         p.accepted[(id, m)] == p.fanned[(id, m)] + p.discarded[(id, m)] + Of(c, id)[(id, m)] {
      forall h: Held ensures p.refused[h] == p.replaced[h] {
        assert p.accepted[(h.0, h.1)] == p.fanned[(h.0, h.1)] + p.discarded[(h.0, h.1)] + Of(c, h.0)[(h.0, h.1)];
      }
    }
  }

  // ----- from a PUBREC to its PUBREL -----

  /** The message that came last under an identifier, if any did. */
  function LastStored(t: State, inputs: seq<Input>, id: NonZeroU16): Option<Message> {
    if inputs == [] then None
    else
      var n := |inputs| - 1;
      var s := Stored(Run(t, inputs[..n]).conn, inputs[n]);
      if s.Some? && s.value.0 == id then Some(s.value.1) else LastStored(t, inputs[..n], id)
  }

  predicate Releases(input: Input, id: NonZeroU16) {
    input.GetPubRel? && input.id == id
  }

  lemma {:induction false} HeldIsLastStored(t: State, inputs: seq<Input>, id: NonZeroU16)
    requires AllOk(t) && t.conn.clientId.Some? && id in t.conn.uncompleted
    requires forall i | 0 <= i < |inputs| :: !Releases(inputs[i], id)
    ensures var c := Run(t, inputs).conn;
      && c.clientId == t.conn.clientId && id in c.uncompleted
      && c.uncompleted[id] ==
         if LastStored(t, inputs, id).Some? then LastStored(t, inputs, id).value else t.conn.uncompleted[id]
  {
    if inputs != [] {
      var n := |inputs| - 1;
      HeldIsLastStored(t, inputs[..n], id);
      RunKeeps(t, inputs[..n]);
      StoredExact(Run(t, inputs[..n]).conn, inputs[n]);
      assert !Releases(inputs[n], id);
      hide Stored, Handle, InboundOk, QueueOk;
    }
  }

  /** A message is accepted, other inputs follow, and then comes its PUBREL: what is fanned out is the
      message that was accepted, if and only if no other message came under its identifier, or the
      last that did was the same. */
  lemma ReleasedIsAcceptedIff(t: State, first: Input, inputs: seq<Input>, id: NonZeroU16, m: Message)
    requires AllOk(t) && Stored(t.conn, first) == Some((id, m)) && id in AcceptedIn(Handle(t.conn, first).1)
    requires forall i | 0 <= i < |inputs| :: !Releases(inputs[i], id)
    ensures var t' := Step(t, first);
      Effect.Deliver(m) in OnPubRel(Run(t', inputs).conn, id, true).1 <==>
        LastStored(t', inputs, id).None? || LastStored(t', inputs, id) == Some(m)
  {
    StoredExact(t.conn, first);
    StepKeeps(t, first);
    HeldIsLastStored(Step(t, first), inputs, id);
    ReleaseDelivers(Run(Step(t, first), inputs).conn, id, m);
    hide Stored, Run, LastStored, OnPubRel;
  }

  lemma ReleaseDelivers(c: Conn, id: NonZeroU16, m: Message)
    requires c.clientId.Some? && id in c.uncompleted
    ensures Effect.Deliver(m) in OnPubRel(c, id, true).1 <==> c.uncompleted[id] == m
  {
  }

  /** No other message comes under an identifier when no QoS 2 PUBLISH with it does. */
  lemma {:induction false} NoneStored(t: State, inputs: seq<Input>, id: NonZeroU16)
    requires forall i | 0 <= i < |inputs| ::
               !(inputs[i].GetPublish? && inputs[i].publish.qos == ExactlyOnce && inputs[i].publish.packetId == Some(id))
    ensures LastStored(t, inputs, id).None?
  {
    if inputs != [] {
      NoneStored(t, inputs[..|inputs| - 1], id);
    }
  }
}
