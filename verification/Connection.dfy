/** A connection (libs/service/src/client_loop.rs) whose handlers update its fields, its allocator
    and the session it serves, each tied to the function of module ConnSpec. */
module Connection {
  import opened Types
  import opened Messages
  import opened PacketIds
  import opened ConnSpec
  import Storage

  class Connection {
    var level: ProtocolLevel
    var clientId: Option<Text>
    var receiveInMax: nat
    var receiveOutMax: nat
    var receiveInQuota: nat
    var receiveOutQuota: nat
    var topicAlias: map<NonZeroU16, Text>
    var qos2: map<NonZeroU16, Qos2State>
    var uncompleted: map<NonZeroU16, Message>
    var allocator: PacketIdAllocator
    var session: Storage.Session  // that of the client; of nobody before CONNECT

    ghost function View(): Conn
      reads this, allocator, session
    {
      Conn(level, clientId, receiveInMax, receiveOutMax, receiveInQuota, receiveOutQuota, topicAlias,
           allocator.next, qos2, uncompleted, session.queue, session.inflight)
    }

    constructor (level: ProtocolLevel)
      ensures fresh(allocator) && fresh(session)
      ensures View() == Conn(level, None, 0, 0, 0, 0, map[], 1, map[], map[], [], [])
    {
      this.level, clientId := level, None;
      receiveInMax, receiveOutMax, receiveInQuota, receiveOutQuota := 0, 0, 0, 0;
      topicAlias, qos2, uncompleted := map[], map[], map[];
      allocator := new PacketIdAllocator();
      session := new Storage.Session(None);
    }

    /** The part of a successful CONNECT that sets the quotas and sends again what is in flight. */
    method HandleConnect(id: Text, inMax: u16, receiveMax: Option<u16>, mine: Storage.Session)
      returns (effects: seq<Effect>)
      requires clientId.None? && topicAlias == map[] && qos2 == map[] && uncompleted == map[] && allocator.next == 1
      modifies this
      ensures session == mine && allocator == old(allocator)
      ensures (View(), effects) == Open(old(level), id, inMax, receiveMax, mine.queue, mine.inflight)
    {
      clientId, session := Some(id), mine;
      receiveInMax := inMax;
      receiveOutMax := if receiveMax.Some? then receiveMax.value else USIZE_MAX;
      receiveInQuota, receiveOutQuota := receiveInMax, receiveOutMax;
      effects := [];
      var packets := mine.inflight;
      ghost var open := View();
      MinusAgain(receiveOutMax, 0);
      for i := 0 to |packets|
        invariant session == mine && allocator == old(allocator) && effects == Resent(packets[..i])
        invariant View() == open.(receiveOutQuota := Minus(receiveOutMax, i))
      {
        MinusAgain(receiveOutMax, i);
        assert packets[..i + 1][..i] == packets[..i];
        receiveOutQuota := Minus(receiveOutQuota, 1);
        effects := effects + [Send(SendPublish(packets[i].(dup := true)))];
      }
      assert packets[..|packets|] == packets;
    }

    method HandlePublish(publish: Publish, env: Env) returns (effects: seq<Effect>, outcome: Outcome)
      modifies this`topicAlias, this`uncompleted, this`receiveInQuota
      ensures (View(), effects, outcome) == OnPublish(old(View()), publish, env)
    {
      effects := [];
      if clientId.None? {
        return effects, Disconnect(ProtocolError);
      }
      var wrong := CheckPublish(publish, env);
      if wrong.Some? {
        return effects, Disconnect(wrong.value);
      }
      var resolved := ResolveTopic(topicAlias, publish);
      if resolved.None? {
        return effects, Disconnect(ProtocolError);
      }
      topicAlias := resolved.value.1;
      if !env.allows(resolved.value.0) {
        return effects, Disconnect(NotAuthorized);
      }
      var msg := FromPublish(publish.(topic := env.rewrite(resolved.value.0)), clientId.value, env.uid, env.now);
      if publish.retain {
        effects := [Retain(msg)];
      }
      var more;
      more, outcome := AcceptMessage(msg, publish.packetId);
      effects := effects + more;
    }

    method AcceptMessage(msg: Message, id: Option<NonZeroU16>) returns (effects: seq<Effect>, outcome: Outcome)
      requires msg.qos != AtMostOnce ==> id.Some?
      modifies this`uncompleted, this`receiveInQuota
      ensures (View(), effects, outcome) == Accept(old(View()), msg, id)
    {
      match msg.qos
      case AtMostOnce => return [Deliver(msg)], Continue;
      case AtLeastOnce => return [Deliver(msg), Send(PubAck(id.value))], Continue;
      case ExactlyOnce =>
        if receiveInQuota == 0 {
          return [], Disconnect(ReceiveMaximumExceeded);
        }
        var inUse := id.value in uncompleted;
        uncompleted := uncompleted[id.value := msg];
        if inUse {
          if level == V5 {
            return [Send(PubRec(id.value, true))], Continue;
          } else {
            return [], Disconnect(ProtocolError);
          }
        }
        receiveInQuota := Minus(receiveInQuota, 1);
        return [Send(PubRec(id.value, false))], Continue;
    }

    method HandlePubRel(id: NonZeroU16, success: bool) returns (effects: seq<Effect>, outcome: Outcome)
      modifies this`uncompleted, this`receiveInQuota
      ensures (View(), effects, outcome) == OnPubRel(old(View()), id, success)
    {
      if clientId.None? {
        return [], Disconnect(ProtocolError);
      }
      if id in uncompleted {
        var msg := uncompleted[id];
        uncompleted := uncompleted - {id};
        if !success {
          return [], Continue;
        }
        effects := [Deliver(msg), Send(PubComp(id, true))];
        receiveInQuota := receiveInQuota + 1;
        return effects, Continue;
      } else if level == V5 {
        return [Send(PubComp(id, false))], Continue;
      } else {
        return [], Disconnect(ProtocolError);
      }
    }

    method HandlePubAck(id: NonZeroU16) returns (effects: seq<Effect>, outcome: Outcome)
      modifies this`receiveOutQuota, session`inflight
      ensures (View(), effects, outcome) == OnPubAck(old(View()), id)
    {
      if clientId.None? {
        return [], Disconnect(ProtocolError);
      }
      var publish := session.GetInflight(id, true);
      if publish.Some? {
        receiveOutQuota := receiveOutQuota + 1;
        return [], Continue;
      }
      return [], Disconnect(ProtocolError);
    }

    method HandlePubRec(id: NonZeroU16, success: bool) returns (effects: seq<Effect>, outcome: Outcome)
      modifies this`qos2, session`inflight
      ensures (View(), effects, outcome) == OnPubRec(old(View()), id, success)
    {
      if clientId.None? || id !in qos2 || qos2[id] != Published {
        return [], Disconnect(ProtocolError);
      }
      qos2 := qos2[id := Recorded];
      if !success {
        var publish := session.GetInflight(id, true);
        if publish.None? {
          return [], Disconnect(ProtocolError);
        }
        return [], Continue;
      }
      var publish := session.GetInflight(id, false);
      if publish.Some? {
        return [Send(PubRel(id, true))], Continue;
      } else if level == V5 {
        return [Send(PubRel(id, false))], Continue;
      } else {
        return [], Disconnect(ProtocolError);
      }
    }

    method DeliveMessage(msg: Message, now: nat) returns (effects: seq<Effect>)
      modifies this`receiveOutQuota, this`qos2, allocator, session`inflight
      ensures (View(), effects) == Delive(old(View()), msg, now)
    {
      var publish := msg.ToPublish(now);
      match publish
      case None => return [];
      case Some(p) =>
        if p.qos == AtMostOnce {
          return [Send(SendPublish(p))];
        }
        var id := allocator.Take();
        var p' := p.(packetId := Some(id));
        receiveOutQuota := Minus(receiveOutQuota, 1);
        session.AddInflight(p');
        qos2 := qos2[id := Published];
        return [Send(SendPublish(p'))];
    }

    method HandleNotified(now: nat) returns (effects: seq<Effect>)
      modifies this`receiveOutQuota, this`qos2, allocator, session`inflight, session`queue
      ensures (View(), effects) == OnNotified(old(View()), now)
    {
      effects := [];
      if clientId.None? || receiveOutQuota == 0 {
        return;
      }
      var msgs := session.NextMessages(Some(receiveOutQuota));
      ghost var c := View();
      for i := 0 to |msgs|
        invariant (View(), effects) == DeliveAll(c, msgs[..i], now)
      {
        assert msgs[..i + 1][..i] == msgs[..i];
        if !msgs[i].IsExpired(now) {
          var more := DeliveMessage(msgs[i], now);
          effects := effects + more;
        }
      }
      assert msgs[..|msgs|] == msgs;
    }

    method HandlePubComp(id: NonZeroU16, now: nat) returns (effects: seq<Effect>, outcome: Outcome)
      modifies this`receiveOutQuota, this`qos2, allocator, session`inflight, session`queue
      ensures (View(), effects, outcome) == OnPubComp(old(View()), id, now)
    {
      if clientId.None? {
        return [], Disconnect(ProtocolError);
      }
      var recorded := id in qos2 && qos2[id] == Recorded;
      qos2 := qos2 - {id};
      if !recorded {
        return [], Disconnect(ProtocolError);
      }
      var publish := session.GetInflight(id, true);
      effects := [];
      if publish.Some? {
        receiveOutQuota := receiveOutQuota + 1;
        effects := HandleNotified(now);
      }
      return effects, Continue;
    }
  }
}
