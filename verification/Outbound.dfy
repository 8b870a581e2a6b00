/** Packets to the client, told by their fields and by what was exchanged before: what a message is sent
    as, which identifier it gets, when it is released, and how far its QoS 2 handshake is
    (libs/service/src/message.rs:143-174, client_loop.rs:608-795, 949-1024). */
module Outbound {
  import opened Types
  import opened Seqs
  import opened Messages
  import opened PacketIds
  import opened StoreSpec
  import opened ConnSpec
  import opened ConnRuns
  import Delivery
  import Q = Qos2Runs

  // ----- what a message is sent as -----

  /** The interval a packet carries: the seconds that are left. */
  function IntervalLeft(m: Message, now: nat): Option<u32> {
    match m.properties.messageExpiryInterval
    case None => None
    case Some(seconds) => Some((m.createdAt + seconds * 1_000_000_000 - now) / 1_000_000_000 % 0x1_0000_0000)
  }

  /** A PUBLISH that carries a message. */
  predicate PacketOf(p: Publish, m: Message, now: nat) {
    && !p.dup && p.qos == m.qos && p.retain == m.retain && p.topic == m.topic && p.payload == m.payload
    && p.properties == PublishProperties(
         m.properties.payloadFormatIndicator,
         IntervalLeft(m, now),
         m.properties.topicAlias,
         m.properties.responseTopic,
         m.properties.correlationData,
         m.properties.userProperties,
         m.properties.subscriptionIdentifiers,
         m.properties.contentType)
  }

  lemma SentAs(m: Message, now: nat)
    requires !Delivery.RunOut(m, now)
    ensures !m.IsExpired(now) && m.ToPublish(now).Some?
    ensures PacketOf(m.ToPublish(now).value, m, now) && m.ToPublish(now).value.packetId == None
  {
  }

  /** A packet, its identifier apart, for each message that had not run out, in order, and no other. */
  ghost predicate Carry(origin: seq<nat>, packets: seq<Publish>, handled: seq<(Message, nat)>) {
    && |origin| == |packets|
    && (forall i, j | 0 <= i < j < |origin| :: origin[i] < origin[j])
    && (forall i | 0 <= i < |origin| ::
          origin[i] < |handled| && PacketOf(packets[i], handled[origin[i]].0, handled[origin[i]].1))
    && (forall j | 0 <= j < |handled| :: j in origin <==> !Delivery.RunOut(handled[j].0, handled[j].1))
  }

  lemma OneMoreCarried(origin: seq<nat>, packets: seq<Publish>, handled: seq<(Message, nat)>, p: Publish)
    requires handled != [] && Carry(origin, packets, handled[..|handled| - 1])
    requires var (m, now) := handled[|handled| - 1]; Delivery.RunOut(m, now) || PacketOf(p, m, now)
    ensures var n := |handled| - 1;
      if Delivery.RunOut(handled[n].0, handled[n].1) then Carry(origin, packets, handled)
      else Carry(origin + [n], packets + [p], handled)
  {
    hide PacketOf, Delivery.RunOut;
    var n := |handled| - 1;
    assert forall j | 0 <= j < n :: handled[..n][j] == handled[j];
    assert forall i | 0 <= i < |origin| :: origin[i] < n;
    assert n !in origin;
  }

  lemma {:induction false} OutgoingCarries(handled: seq<(Message, nat)>) returns (origin: seq<nat>)
    ensures Carry(origin, Outgoing(handled), handled)
  {
    hide PacketOf, Carry;
    origin := [];
    if handled == [] {
      NothingCarried();
    } else {
      var n := |handled| - 1;
      var (m, now) := handled[n];
      origin := OutgoingCarries(handled[..n]);
      EmptyJoin(Outgoing(handled[..n]));
      if Delivery.RunOut(m, now) {
        OneMoreCarried(origin, Outgoing(handled[..n]), handled, Plain());
      } else {
        SentAs(m, now);
        OneMoreCarried(origin, Outgoing(handled[..n]), handled, m.ToPublish(now).value);
        origin := origin + [n];
      }
    }
  }

  function Plain(): Publish {
    Publish(false, AtMostOnce, false, [], None, NO_PROPERTIES, [])
  }

  lemma NothingCarried()
    ensures Carry([], Outgoing([]), [])
  {
  }

  /** Over every run: the packets that went out are those of the messages that left the queue, in their
      order, without those that had run out. */
  lemma RunCarries(t: State, inputs: seq<Input>) returns (origin: seq<nat>)
    requires AllOk(t)
    ensures Carry(origin, Run(t, inputs).ledger.sent, Run(t, inputs).ledger.handled)
  {
    RunKeeps(t, inputs);
    origin := OutgoingCarries(Run(t, inputs).ledger.handled);
    hide Run, Carry, InboundOk, OutboundOk;
  }

  // ----- identifiers, and what is in flight -----

  /** The packets with an identifier among what a step sends. */
  function NumberedIn(effects: seq<Effect>): seq<Publish> {
    if effects == [] then []
    else
      var e := effects[|effects| - 1];
      NumberedIn(effects[..|effects| - 1]) +
      if e.Send? && e.packet.SendPublish? && e.packet.publish.packetId.Some? then [e.packet.publish] else []
  }

  lemma {:induction false} NumberedJoin(a: seq<Effect>, b: seq<Effect>)
    ensures NumberedIn(a + b) == NumberedIn(a) + NumberedIn(b)
  {
    if b == [] {
      EmptyJoin(a);
      EmptyJoin(NumberedIn(a));
    } else {
      LastOfJoin(a, b);
      assert (a + b)[..|a + b| - 1] == a + b[..|b| - 1];
      NumberedJoin(a, b[..|b| - 1]);
      var e := b[|b| - 1];
      Associative(NumberedIn(a), NumberedIn(b[..|b| - 1]),
                  if e.Send? && e.packet.SendPublish? && e.packet.publish.packetId.Some? then [e.packet.publish] else []);
    }
  }

  lemma NumberedOne(e: Effect)
    ensures NumberedIn([e]) ==
      if e.Send? && e.packet.SendPublish? && e.packet.publish.packetId.Some? then [e.packet.publish] else []
  {
    assert [e][..0] == [];
  }

  /** The identifier that follows n takes later. */
  function IdAfter(next: NonZeroU16, n: nat): NonZeroU16 {
    (next - 1 + n) % 65535 + 1
  }

  lemma IdAfterTwice(next: NonZeroU16, m: nat, n: nat)
    ensures IdAfter(IdAfter(next, m), n) == IdAfter(next, m + n)
    ensures IdAfter(next, 0) == next && IdAfter(next, 1) == NextId(next)
  {
    var (x, q) := (next - 1 + m, (next - 1 + m) / 65535);
    assert x == q * 65535 + x % 65535;
    ModPlus(x % 65535 + n, q);
  }

  /** QoS 1 and 2 alone have identifiers, handed out one after the other. */
  ghost predicate Numbered(packets: seq<Publish>, next: NonZeroU16) {
    forall i | 0 <= i < |packets| :: packets[i].qos != AtMostOnce && packets[i].packetId == Some(IdAfter(next, i))
  }

  lemma NumberedTwice(p: seq<Publish>, q: seq<Publish>, next: NonZeroU16)
    requires Numbered(p, next) && Numbered(q, IdAfter(next, |p|))
    ensures Numbered(p + q, next)
    ensures IdAfter(IdAfter(next, |p|), |q|) == IdAfter(next, |p + q|)
  {
    hide IdAfter;
    IdAfterTwice(next, |p|, |q|);
    forall i | 0 <= i < |p + q|
      ensures (p + q)[i].qos != AtMostOnce && (p + q)[i].packetId == Some(IdAfter(next, i))
    {
      if i < |p| {
        assert (p + q)[i] == p[i];
      } else {
        var j := i - |p|;
        IdAfterTwice(next, |p|, j);
        assert (p + q)[i] == q[j];
      }
    }
  }

  /** The state after some packets have gone out on top of another. */
  ghost predicate Went(c: Conn, c': Conn, packets: seq<Publish>) {
    && c'.inflight == c.inflight + packets
    && Numbered(packets, c.nextId) && c'.nextId == IdAfter(c.nextId, |packets|)
    && (forall id: NonZeroU16 :: Progress(c', id) == if SentUnder(packets, id) then Some(Published) else Progress(c, id))
  }

  function Progress(c: Conn, id: NonZeroU16): Option<Qos2State> {
    if id in c.qos2 then Some(c.qos2[id]) else None
  }

  predicate SentUnder(packets: seq<Publish>, id: NonZeroU16) {
    exists p <- packets :: p.packetId == Some(id)
  }

  /** A message with QoS 1 or 2 is sent under the allocator's next identifier, and what is sent is what
      is in flight; one with QoS 0 has no identifier and is not. */
  lemma DeliveSends(c: Conn, msg: Message, now: nat)
    requires !Delivery.RunOut(msg, now)
    ensures var (c', effects) := Delive(c, msg, now);
      && |effects| == 1 && effects[0].Send? && effects[0].packet.SendPublish?
      && PacketOf(effects[0].packet.publish, msg, now)
      && effects[0].packet.publish.packetId == (if msg.qos == AtMostOnce then None else Some(c.nextId))
      && c'.nextId == (if msg.qos == AtMostOnce then c.nextId else c.nextId % 65535 + 1)
      && Went(c, c', NumberedIn(effects))
  {
    var (c', effects) := Delive(c, msg, now);
    SentAs(msg, now);
    NumberedOne(effects[0]);
    assert effects == [effects[0]];
    EmptyJoin(c.inflight);
    IdAfterTwice(c.nextId, 0, 1);
    if msg.qos != AtMostOnce {
      assert effects[0].packet.publish in NumberedIn(effects);
    }
  }

  lemma WentTwice(a: Conn, b: Conn, c: Conn, p: seq<Publish>, q: seq<Publish>)
    requires Went(a, b, p) && Went(b, c, q)
    ensures Went(a, c, p + q)
  {
    Associative(a.inflight, p, q);
    NumberedTwice(p, q, a.nextId);
    hide Numbered, IdAfter;
    forall id: NonZeroU16 ensures SentUnder(p + q, id) <==> SentUnder(p, id) || SentUnder(q, id) {
      if x :| x in p + q && x.packetId == Some(id) {
        assert x in p || x in q;
      }
      if x :| x in p && x.packetId == Some(id) {
        assert x in p + q;
      }
      if x :| x in q && x.packetId == Some(id) {
        assert x in p + q;
      }
    }
    hide SentUnder;
  }

  lemma WentNowhere(c: Conn, c': Conn)
    requires c'.inflight == c.inflight && c'.qos2 == c.qos2 && c'.nextId == c.nextId
    ensures Went(c, c', [])
  {
    IdAfterTwice(c.nextId, 0, 0);
  }

  lemma {:induction false} DeliveAllSends(c: Conn, msgs: seq<Message>, now: nat)
    ensures Went(c, DeliveAll(c, msgs, now).0, NumberedIn(DeliveAll(c, msgs, now).1))
  {
    hide Went, Delive, NumberedIn;
    if msgs == [] {
      assert NumberedIn([]) == [] by { NumberedNone(); }
      WentNowhere(c, c);
    } else {
      var rest, msg := msgs[..|msgs| - 1], msgs[|msgs| - 1];
      var (c', effects) := DeliveAll(c, rest, now);
      DeliveAllSends(c, rest, now);
      if !msg.IsExpired(now) {
        var (c'', more) := Delive(c', msg, now);
        DeliveSends(c', msg, now);
        WentTwice(c, c', c'', NumberedIn(effects), NumberedIn(more));
        NumberedJoin(effects, more);
      }
    }
  }

  lemma NumberedNone()
    ensures NumberedIn([]) == []
  {
  }

  /** A drain takes as many messages as the quota allows, the oldest first. */
  lemma DrainExact(c: Conn, now: nat)
    requires c.receiveOutQuota <= USIZE_MAX
    ensures var (c', effects) := OnNotified(c, now);
      && Went(c, c', NumberedIn(effects))
      && c'.queue == (if c.clientId.None? then c.queue
                      else c.queue[if c.receiveOutQuota <= |c.queue| then c.receiveOutQuota else |c.queue|..])
  {
    hide Went, DeliveAll;
    NumberedNone();
    if c.clientId.None? || c.receiveOutQuota == 0 {
      WentNowhere(c, c);
    } else {
      var n := Batch(c.queue, Some(c.receiveOutQuota));
      var c1 := c.(queue := c.queue[n..]);
      DeliveAllSends(c1, c.queue[..n], now);
      DeliveAllKeeps(c1, c.queue[..n], now);
      SameStart(c1, c, DeliveAll(c1, c.queue[..n], now).0, NumberedIn(DeliveAll(c1, c.queue[..n], now).1));
    }
  }

  lemma SameStart(a: Conn, b: Conn, c: Conn, packets: seq<Publish>)
    requires Went(a, c, packets) && b.inflight == a.inflight && b.qos2 == a.qos2 && b.nextId == a.nextId
    ensures Went(b, c, packets)
  {
    forall id: NonZeroU16 ensures Progress(c, id) == if SentUnder(packets, id) then Some(Published) else Progress(b, id) {
      assert Progress(c, id) == if SentUnder(packets, id) then Some(Published) else Progress(a, id);
    }
  }

  // ----- every step -----

  /** An acknowledgement that releases the oldest packet in flight: it has its identifier, and is a
      PUBACK, a failing PUBREC of a packet that was only published, or a PUBCOMP after a PUBREC. */
  predicate Releases(c: Conn, input: Input) {
    && c.clientId.Some? && c.inflight != []
    && match input
       case GetPubAck(id) => c.inflight[0].packetId == Some(id)
       case GetPubRec(id, success) =>
         c.inflight[0].packetId == Some(id) && Progress(c, id) == Some(Published) && !success
       case GetPubComp(id, _) => c.inflight[0].packetId == Some(id) && Progress(c, id) == Some(Recorded)
       case _ => false
  }

  /** How far the handshake under an identifier is after an input, before anything goes out. */
  function Advanced(c: Conn, input: Input, id: NonZeroU16): Option<Qos2State> {
    match input
    case GetPubRec(i, _) =>
      if c.clientId.Some? && i == id && Progress(c, id) == Some(Published) then Some(Recorded) else Progress(c, id)
    case GetPubComp(i, _) => if c.clientId.Some? && i == id then None else Progress(c, id)
    case _ => Progress(c, id)
  }

  /** What an input does to the packets in flight and to the handshakes. */
  ghost predicate StepsTo(c: Conn, input: Input, c': Conn, packets: seq<Publish>) {
    && c'.inflight == (if Releases(c, input) then c.inflight[1..] else c.inflight) + packets
    && Numbered(packets, c.nextId) && c'.nextId == IdAfter(c.nextId, |packets|)
    && (forall id: NonZeroU16 ::
          Progress(c', id) == if SentUnder(packets, id) then Some(Published) else Advanced(c, input, id))
  }

  lemma WentFrom(c: Conn, input: Input, middle: Conn, c': Conn, packets: seq<Publish>)
    requires Went(middle, c', packets) && middle.nextId == c.nextId
    requires middle.inflight == if Releases(c, input) then c.inflight[1..] else c.inflight
    requires forall id: NonZeroU16 :: Progress(middle, id) == Advanced(c, input, id)
    ensures StepsTo(c, input, c', packets)
  {
    hide Releases, Advanced, SentUnder, Progress;
  }

  lemma StepExact(c: Conn, input: Input)
    requires c.receiveInQuota <= USIZE_MAX && c.receiveOutQuota + |c.inflight| <= USIZE_MAX
    ensures StepsTo(c, input, Handle(c, input).0, NumberedIn(Handle(c, input).1))
  {
    match input
    case GetPublish(publish, env) => PublishStep(c, publish, env);
    case GetPubRel(id, success) => PubRelStep(c, id, success);
    case GetPubAck(id) => PubAckStep(c, id);
    case GetPubRec(id, success) => PubRecStep(c, id, success);
    case GetPubComp(id, now) => PubCompStep(c, id, now);
    case Notified(now) =>
      hide StepsTo, Went, OnNotified;
      DrainExact(c, now);
      WentFrom(c, input, c, OnNotified(c, now).0, NumberedIn(OnNotified(c, now).1));
    case Enqueue(msgs) =>
      hide StepsTo, Went;
      NumberedNone();
      WentNowhere(c, c.(queue := c.queue + msgs));
      WentFrom(c, input, c, c.(queue := c.queue + msgs), []);
  }

  /** Nothing with an identifier goes out when all there is to send are messages and acknowledgements. */
  lemma {:induction false} NothingNumbered(effects: seq<Effect>)
    requires forall e <- effects :: !(e.Send? && e.packet.SendPublish?)
    ensures NumberedIn(effects) == []
  {
    if effects != [] {
      NothingNumbered(effects[..|effects| - 1]);
    }
  }

  lemma PublishStep(c: Conn, publish: Publish, env: Env)
    requires c.receiveInQuota <= USIZE_MAX
    ensures StepsTo(c, GetPublish(publish, env), OnPublish(c, publish, env).0, NumberedIn(OnPublish(c, publish, env).1))
  {
    PublishEffects(c, publish, env);
    PublishSendsNone(c, publish, env);
    NothingNumbered(OnPublish(c, publish, env).1);
    hide StepsTo, Went, OnPublish, Holds;
    WentNowhere(c, OnPublish(c, publish, env).0);
    WentFrom(c, GetPublish(publish, env), c, OnPublish(c, publish, env).0, []);
  }

  lemma PublishSendsNone(c: Conn, publish: Publish, env: Env)
    ensures forall e <- OnPublish(c, publish, env).1 :: !(e.Send? && e.packet.SendPublish?)
  {
  }

  lemma PubRelStep(c: Conn, id: NonZeroU16, success: bool)
    ensures StepsTo(c, GetPubRel(id, success), OnPubRel(c, id, success).0, NumberedIn(OnPubRel(c, id, success).1))
  {
    PubRelEffects(c, id, success);
    NothingNumbered(OnPubRel(c, id, success).1);
    hide StepsTo, Went, OnPubRel;
    WentNowhere(c, OnPubRel(c, id, success).0);
    WentFrom(c, GetPubRel(id, success), c, OnPubRel(c, id, success).0, []);
  }

  lemma PubAckStep(c: Conn, id: NonZeroU16)
    ensures StepsTo(c, GetPubAck(id), OnPubAck(c, id).0, NumberedIn(OnPubAck(c, id).1))
  {
    NumberedNone();
    var c' := OnPubAck(c, id).0;
    assert c'.inflight == if Releases(c, GetPubAck(id)) then c.inflight[1..] else c.inflight;
    hide StepsTo, Went, OnPubAck, Releases;
    WentNowhere(c', c');
    WentFrom(c, GetPubAck(id), c', c', []);
  }

  lemma PubRecStep(c: Conn, id: NonZeroU16, success: bool)
    ensures StepsTo(c, GetPubRec(id, success), OnPubRec(c, id, success).0, NumberedIn(OnPubRec(c, id, success).1))
  {
    NothingNumbered(OnPubRec(c, id, success).1);
    var (input, c') := (GetPubRec(id, success), OnPubRec(c, id, success).0);
    assert c'.inflight == if Releases(c, input) then c.inflight[1..] else c.inflight;
    assert forall i: NonZeroU16 :: Progress(c', i) == Advanced(c, input, i);
    hide StepsTo, Went, OnPubRec, Releases, Advanced;
    WentNowhere(c', c');
    WentFrom(c, input, c', c', []);
  }

  lemma PubCompStep(c: Conn, id: NonZeroU16, now: nat)
    requires c.receiveOutQuota + |c.inflight| <= USIZE_MAX
    ensures StepsTo(c, GetPubComp(id, now), OnPubComp(c, id, now).0, NumberedIn(OnPubComp(c, id, now).1))
  {
    var (input, c') := (GetPubComp(id, now), OnPubComp(c, id, now).0);
    if Releases(c, input) {
      DrainExact(Completed(c, id), now);
      assert forall i: NonZeroU16 :: Progress(Completed(c, id), i) == Advanced(c, input, i);
      hide StepsTo, Went, OnNotified;
      WentFrom(c, input, Completed(c, id), c', NumberedIn(OnPubComp(c, id, now).1));
    } else {
      NumberedNone();
      assert c'.inflight == c.inflight && forall i: NonZeroU16 :: Progress(c', i) == Advanced(c, input, i);
      hide StepsTo, Went, OnPubComp, Releases, Advanced;
      WentNowhere(c', c');
      WentFrom(c, input, c', c', []);
    }
  }

  // ----- every run -----

  /** What went out with an identifier, and what was released, over a run. */
  function Sent(t: State, inputs: seq<Input>): seq<Publish> {
    if inputs == [] then []
    else
      var n := |inputs| - 1;
      Sent(t, inputs[..n]) + NumberedIn(Handle(Run(t, inputs[..n]).conn, inputs[n]).1)
  }

  function Released(t: State, inputs: seq<Input>): seq<Publish> {
    if inputs == [] then []
    else
      var n := |inputs| - 1;
      var c := Run(t, inputs[..n]).conn;
      Released(t, inputs[..n]) + if Releases(c, inputs[n]) then [c.inflight[0]] else []
  }

  /** How far the handshake under an identifier has come, by what was exchanged: a PUBLISH with it went
      out, then a PUBREC came in, and a PUBCOMP ends it. */
  function Reached(t: State, inputs: seq<Input>, id: NonZeroU16): Option<Qos2State> {
    if inputs == [] then None
    else
      var n := |inputs| - 1;
      var (before, last) := (Reached(t, inputs[..n], id), inputs[n]);
      if SentUnder(NumberedIn(Handle(Run(t, inputs[..n]).conn, last).1), id) then Some(Published)
      else match last
        case GetPubRec(i, _) => if i == id && before == Some(Published) then Some(Recorded) else before
        case GetPubComp(i, _) => if i == id then None else before
        case _ => before
  }

  lemma WithinLimits(t: State, inputs: seq<Input>)
    requires AllOk(t)
    ensures var c := Run(t, inputs).conn;
      c.receiveInQuota <= USIZE_MAX && c.receiveOutQuota + |c.inflight| <= USIZE_MAX
  {
    hide Run, QueueOk;
    RunKeeps(t, inputs);
  }

  lemma RunStepsTo(t: State, inputs: seq<Input>)
    requires AllOk(t) && inputs != []
    ensures var (n, c) := (|inputs| - 1, Run(t, inputs[..|inputs| - 1]).conn);
      StepsTo(c, inputs[n], Run(t, inputs).conn, NumberedIn(Handle(c, inputs[n]).1))
  {
    hide StepsTo, Handle, NumberedIn, Record, AllOk;
    WithinLimits(t, inputs[..|inputs| - 1]);
    StepExact(Run(t, inputs[..|inputs| - 1]).conn, inputs[|inputs| - 1]);
  }

  /** Over every run: what was in flight and went out is what was released and is in flight, in order;
      and what went out has the identifiers one after the other. */
  lemma {:induction false} RunInFlight(t: State, inputs: seq<Input>)
    requires AllOk(t)
    ensures var c := Run(t, inputs).conn;
      && t.conn.inflight + Sent(t, inputs) == Released(t, inputs) + c.inflight
      && Numbered(Sent(t, inputs), t.conn.nextId) && c.nextId == IdAfter(t.conn.nextId, |Sent(t, inputs)|)
  {
    hide Run, Handle, NumberedIn, Numbered, IdAfter, AllOk;
    if inputs == [] {
      NoneYet(t);
    } else {
      var n := |inputs| - 1;
      var c := Run(t, inputs[..n]).conn;
      var packets := NumberedIn(Handle(c, inputs[n]).1);
      RunInFlight(t, inputs[..n]);
      RunStepsTo(t, inputs);
      NumberedTwice(Sent(t, inputs[..n]), packets, t.conn.nextId);
      Conserved(t.conn.inflight, Sent(t, inputs[..n]), Released(t, inputs[..n]), c.inflight, packets, Releases(c, inputs[n]));
    }
  }

  lemma NoneYet(t: State)
    ensures Run(t, []).conn.inflight == t.conn.inflight && Run(t, []).conn.nextId == t.conn.nextId
    ensures t.conn.inflight + [] == [] + t.conn.inflight
    ensures Numbered([], t.conn.nextId) && IdAfter(t.conn.nextId, 0) == t.conn.nextId
  {
    IdAfterTwice(t.conn.nextId, 0, 0);
  }

  lemma Conserved<X>(before: seq<X>, sent: seq<X>, released: seq<X>, inflight: seq<X>, more: seq<X>, release: bool)
    requires before + sent == released + inflight && (release ==> inflight != [])
    ensures before + (sent + more) ==
      (released + if release then [inflight[0]] else []) + ((if release then inflight[1..] else inflight) + more)
  {
    Associative(before, sent, more);
    if release {
      assert inflight == [inflight[0]] + inflight[1..];
      Associative(released, [inflight[0]], inflight[1..]);
      Associative(released + [inflight[0]], inflight[1..], more);
    } else {
      EmptyJoin(released);
      Associative(released, inflight, more);
    }
  }

  /** Over every run of a connection that has sent nothing before, the state of each handshake is what
      was exchanged. */
  lemma {:induction false} RunReached(t: State, inputs: seq<Input>, id: NonZeroU16)
    requires AllOk(t) && t.conn.clientId.Some? && t.conn.qos2 == map[]
    ensures Progress(Run(t, inputs).conn, id) == Reached(t, inputs, id) && Run(t, inputs).conn.clientId.Some?
  {
    hide Handle, NumberedIn, Releases, Numbered, SentUnder, AllOk, Record;
    if inputs != [] {
      var n := |inputs| - 1;
      RunReached(t, inputs[..n], id);
      RunStepsTo(t, inputs);
      WithinLimits(t, inputs[..n]);
      KeepsClient(Run(t, inputs[..n]).conn, inputs[n]);
    }
  }

  lemma KeepsClient(c: Conn, input: Input)
    requires c.receiveInQuota <= USIZE_MAX && c.receiveOutQuota + |c.inflight| <= USIZE_MAX
    ensures Handle(c, input).0.clientId == c.clientId
  {
    hide Handle, Q.Stored;
    Q.StoredExact(c, input);
  }

  // ----- what is answered -----

  /** The oldest packet in flight has an identifier. */
  predicate IsOldest(c: Conn, id: NonZeroU16) {
    c.inflight != [] && c.inflight[0].packetId == Some(id)
  }

  /** A PUBREC is refused unless the last thing under its identifier was a PUBLISH; a success is answered
      with a PUBREL, which says whether the packet is the oldest in flight. */
  lemma PubRecAnswered(t: State, inputs: seq<Input>, id: NonZeroU16, success: bool)
    requires AllOk(t) && t.conn.clientId.Some? && t.conn.qos2 == map[]
    ensures var c := Run(t, inputs).conn;
      var (c', effects, outcome) := OnPubRec(c, id, success);
      if Reached(t, inputs, id) != Some(Published) then effects == [] && outcome == Disconnect(ProtocolError) && c' == c
      else if success && (IsOldest(c, id) || c.level == V5) then
        effects == [Send(PubRel(id, IsOldest(c, id)))] && outcome == Continue
      else effects == [] && (outcome == Continue <==> !success && IsOldest(c, id))
  {
    RunReached(t, inputs, id);
    hide Run, Reached;
  }

  /** A PUBCOMP is refused unless a PUBREC came before it; one that releases a packet drains the queue by
      the quota there is then. */
  lemma PubCompAnswered(t: State, inputs: seq<Input>, id: NonZeroU16, now: nat)
    requires AllOk(t) && t.conn.clientId.Some? && t.conn.qos2 == map[]
    ensures var c := Run(t, inputs).conn;
      var (c', effects, outcome) := OnPubComp(c, id, now);
      && outcome == (if Reached(t, inputs, id) == Some(Recorded) then Continue else Disconnect(ProtocolError))
      && c'.queue == (if Reached(t, inputs, id) == Some(Recorded) && IsOldest(c, id)
                      then c.queue[if c.receiveOutQuota + 1 <= |c.queue| then c.receiveOutQuota + 1 else |c.queue|..]
                      else c.queue)
  {
    RunReached(t, inputs, id);
    WithinLimits(t, inputs);
    var c := Run(t, inputs).conn;
    if IsOldest(c, id) {
      DrainExact(Completed(c, id), now);
    }
    hide Run, Reached, OnNotified, AllOk, Went, NumberedIn;
  }

  /** A PUBACK is refused unless it is for the oldest packet in flight; either way the queue stays. */
  lemma PubAckAnswered(c: Conn, id: NonZeroU16)
    requires c.clientId.Some?
    ensures var (c', effects, outcome) := OnPubAck(c, id);
      && effects == [] && c'.queue == c.queue
      && outcome == if IsOldest(c, id) then Continue else Disconnect(ProtocolError)
  {
  }

  // ----- resumption -----

  /** What is in flight is sent again when a connection opens: as it was, marked as a duplicate. */
  lemma {:induction false} ResentExact(inflight: seq<Publish>)
    ensures |Resent(inflight)| == |inflight|
    ensures forall i | 0 <= i < |inflight| ::
              && Resent(inflight)[i].Send? && Resent(inflight)[i].packet.SendPublish?
              && Resent(inflight)[i].packet.publish.dup
              && Resent(inflight)[i].packet.publish.(dup := inflight[i].dup) == inflight[i]
  {
    if inflight != [] {
      ResentExact(inflight[..|inflight| - 1]);
    }
  }

  /** A connection starts with the session's queue and packets, and with nothing of what the connection
      before it knew: its quotas are those that were agreed, less what is in flight, and no alias, no
      handshake and no held message is left. */
  lemma OpenExact(level: ProtocolLevel, id: Text, inMax: u16, receiveMax: Option<u16>, queue: seq<Message>,
                  inflight: seq<Publish>)
    requires receiveMax.Some? ==> |inflight| <= receiveMax.value
    requires |inflight| <= USIZE_MAX
    ensures var (c, effects) := Open(level, id, inMax, receiveMax, queue, inflight);
      && c.queue == queue && c.inflight == inflight && effects == Resent(inflight)
      && c.receiveInQuota == c.receiveInMax == inMax
      && c.receiveOutQuota + |inflight| == c.receiveOutMax == (if receiveMax.Some? then receiveMax.value else USIZE_MAX)
      && c.clientId == Some(id) && c.level == level && c.nextId == 1
      && c.topicAlias == map[] && c.qos2 == map[] && c.uncompleted == map[]
  {
    MinusExact(ReceiveOutMax(receiveMax), |inflight|);
    hide Minus, Resent;
  }

  lemma MinusExact(a: nat, b: nat)
    requires b <= a <= USIZE_MAX
    ensures Minus(a, b) == a - b
  {
  }

  /** So a PUBREC for a packet of an earlier connection is refused, whatever the packet, for as long as
      this connection has not sent one under the same identifier. */
  lemma ResumedPubRecRefused(t: State, inputs: seq<Input>, id: NonZeroU16, success: bool)
    requires AllOk(t) && t.conn.clientId.Some? && t.conn.qos2 == map[]
    requires forall p <- Sent(t, inputs) :: p.packetId != Some(id)
    ensures OnPubRec(Run(t, inputs).conn, id, success).2 == Disconnect(ProtocolError)
  {
    NeverReached(t, inputs, id);
    PubRecAnswered(t, inputs, id, success);
    hide Run, Reached, OnPubRec;
  }

  lemma {:induction false} NeverReached(t: State, inputs: seq<Input>, id: NonZeroU16)
    requires forall p <- Sent(t, inputs) :: p.packetId != Some(id)
    ensures Reached(t, inputs, id).None?
  {
    hide Run, Handle, NumberedIn;
    if inputs != [] {
      var n := |inputs| - 1;
      assert forall p <- Sent(t, inputs[..n]) :: p in Sent(t, inputs);
      NeverReached(t, inputs[..n], id);
      assert forall p <- NumberedIn(Handle(Run(t, inputs[..n]).conn, inputs[n]).1) :: p in Sent(t, inputs);
    }
  }

  predicate DistinctIds(packets: seq<Publish>) {
    forall i, j | 0 <= i < j < |packets| :: packets[i].packetId != packets[j].packetId
  }

  /** And identifiers start at 1 again, whatever is in flight. As long as one of the packets that were
      in flight at the start is left, the identifiers in flight differ from one another exactly when
      fewer packets were sent than any of these has for an identifier, and no more than there are
      identifiers. */
  lemma ResumedIdsDistinctIff(t: State, inputs: seq<Input>)
    requires AllOk(t) && t.conn.nextId == 1 && DistinctIds(t.conn.inflight)
    requires forall p <- t.conn.inflight :: p.packetId.Some?
    requires |Released(t, inputs)| < |t.conn.inflight|
    ensures DistinctIds(Run(t, inputs).conn.inflight) <==>
      && |Sent(t, inputs)| <= 65535
      && forall i | |Released(t, inputs)| <= i < |t.conn.inflight| :: t.conn.inflight[i].packetId.value > |Sent(t, inputs)|
  {
    hide Run, Sent, Released, AllOk, Numbered, DistinctIds, IdAfter;
    var (start, sent, released) := (t.conn.inflight, Sent(t, inputs), Released(t, inputs));
    RunInFlight(t, inputs);
    LeftInFlight(start, sent, released, Run(t, inputs).conn.inflight);
    DistinctTail(start, |released|);
    DistinctTogetherIff(start[|released|..], sent);
    SameTail(start, |released|, |sent|);
  }

  lemma LeftInFlight<X>(start: seq<X>, sent: seq<X>, released: seq<X>, now: seq<X>)
    requires start + sent == released + now && |released| <= |start|
    ensures now == start[|released|..] + sent
  {
    CutEarly(start, sent, |released|);
    CutEarly(released, now, |released|);
    EmptyJoin(now);
  }

  lemma DistinctTail(packets: seq<Publish>, k: nat)
    requires DistinctIds(packets) && k <= |packets|
    ensures DistinctIds(packets[k..])
  {
  }

  lemma SameTail(packets: seq<Publish>, k: nat, n: nat)
    requires k <= |packets| && forall p <- packets :: p.packetId.Some?
    ensures (forall i | 0 <= i < |packets[k..]| :: packets[k..][i].packetId.value > n) <==>
            forall i | k <= i < |packets| :: packets[i].packetId.value > n
  {
    var tail := packets[k..];
    if forall i | 0 <= i < |tail| :: tail[i].packetId.value > n {
      forall i | k <= i < |packets| ensures packets[i].packetId.value > n {
        assert tail[i - k] == packets[i];
      }
    }
  }

  lemma DistinctTogetherIff(kept: seq<Publish>, sent: seq<Publish>)
    requires kept != [] && DistinctIds(kept) && Numbered(sent, 1)
    requires forall p <- kept :: p.packetId.Some?
    ensures DistinctIds(kept + sent) <==>
      |sent| <= 65535 && forall i | 0 <= i < |kept| :: kept[i].packetId.value > |sent|
  {
    var all := kept + sent;
    assert forall i | 0 <= i < |sent| :: all[|kept| + i] == sent[i];
    if |sent| > 65535 {
      assert all[|kept|].packetId == all[|kept| + 65535].packetId;
    } else if i :| 0 <= i < |kept| && kept[i].packetId.value <= |sent| {
      var id: nat := kept[i].packetId.value;
      assert sent[id - 1].packetId == Some(id);
      assert all[i].packetId == all[|kept| + (id - 1)].packetId;
    } else {
      forall i, j | 0 <= i < j < |all| ensures all[i].packetId != all[j].packetId {
        if j >= |kept| {
          assert all[j].packetId == Some(j - |kept| + 1);
        }
      }
    }
  }
}
