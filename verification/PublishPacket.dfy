/** The encoder and decoder of PUBLISH (libs/codec/src/publish.rs), which append to one buffer and
    consume another, each proved against the function of module PublishSpec. */
module PublishPacket {
  import opened Types
  import opened Seqs
  import opened Wire
  import opened Buffers
  import opened Properties
  import opened UserProperties
  import opened PublishSpec

  method IdsLength(ids: seq<NonZeroUsize>) returns (r: Result<nat, EncodeError>)
    ensures r == AllDeclared(IdItems(ids))
  {
    var len := 0;
    for i := 0 to |ids|
      invariant Counted(IdItems(ids), len, IdItems(ids[i..]))
    {
      NextId(ids[i..]);
      assert ids[i..][1..] == ids[i + 1..];
      var size :- DeclaredLength(ids[i]);
      len := len + 1 + size;
    }
    return Ok(len);
  }

  lemma NextId(ids: seq<NonZeroUsize>)
    requires ids != []
    ensures IdItems(ids) == Cons(Some(SubscriptionIdentifier(ids[0])), IdItems(ids[1..]))
    ensures var (item, rest) := (SubscriptionIdentifier(ids[0]), IdItems(ids[1..]));
      && (AllDeclared(IdItems(ids)).Ok? <==> item.Declared().Ok? && AllDeclared(rest).Ok?)
      && (AllDeclared(IdItems(ids)).Ok? ==>
        AllDeclared(IdItems(ids)).value == item.Declared().value + AllDeclared(rest).value)
  {
    ConsDeclared(Some(SubscriptionIdentifier(ids[0])), IdItems(ids[1..]));
  }

  /** The macros `prop_len` and `prop_data_len`. */
  function PropLen<T>(value: Option<T>, len: nat): nat {
    if value.Some? then 1 + len else 0
  }

  function PropDataLen(value: Option<Text>): nat {
    if value.Some? then 1 + 2 + |value.value| else 0
  }

  method NumbersLength(p: PublishProperties) returns (len: nat)
    ensures Counted(Items(p), len, FromResponse(p))
  {
    ghost var items, fromAlias := Items(p), Cons(Alias(p), FromResponse(p));
    len := 0;
    OneCounted(items, len, Indicator(p), Cons(Expiry(p), fromAlias));
    len := len + PropLen(p.payloadFormatIndicator, 1);
    OneCounted(items, len, Expiry(p), fromAlias);
    len := len + PropLen(p.messageExpiryInterval, 4);
    OneCounted(items, len, Alias(p), FromResponse(p));
    len := len + PropLen(p.topicAlias, 2);
  }

  method ReplyLength(p: PublishProperties, ghost before: nat) returns (len: nat)
    requires Counted(Items(p), before, FromResponse(p))
    ensures Counted(Items(p), before + len, FromUsers(p))
  {
    len := 0;
    OneCounted(Items(p), before, Response(p), Cons(Correlation(p), FromUsers(p)));
    len := len + PropDataLen(p.responseTopic);
    OneCounted(Items(p), before + len, Correlation(p), FromUsers(p));
    len := len + PropDataLen(p.correlationData);
  }

  method ListsLength(p: PublishProperties, ghost before: nat) returns (r: Result<nat, EncodeError>)
    requires Counted(Items(p), before, FromUsers(p))
    ensures match AllDeclared(Items(p))
      case Ok(total) => r.Ok? && total == before + r.value
      case Err(e) => r == Err(e)
  {
    SomeCounted(Items(p), before, UserItems(p.userProperties), FromIds(p));
    var len := UsersLength(p.userProperties);
    SomeCounted(Items(p), before + len, IdItems(p.subscriptionIdentifiers), Cons(Content(p), []));
    var ids :- IdsLength(p.subscriptionIdentifiers);
    len := len + ids;
    OneCounted(Items(p), before + len, Content(p), []);
    len := len + PropDataLen(p.contentType);
    return Ok(len);
  }

  method BytesLength(p: PublishProperties) returns (r: Result<nat, EncodeError>)
    ensures r == AllDeclared(Items(p))
  {
    var len := NumbersLength(p);
    var reply := ReplyLength(p, len);
    var lists :- ListsLength(p, len + reply);
    return Ok(len + reply + lists);
  }

  /** Appends one property: its kind, then its value. */
  method Put(item: Property, data: BytesMut) returns (r: Result<(), EncodeError>)
    modifies data
    ensures r == if item.Fits() then Ok(()) else Err(PayloadTooLarge)
    ensures data.data == old(data.data) + item.Printed()
  {
    match item
    case PayloadFormatIndicator(on) =>
      data.PutU8(PAYLOAD_FORMAT_INDICATOR);
      data.WriteBool(on);
      return Ok(());
    case MessageExpiryInterval(n) =>
      data.PutU8(MESSAGE_EXPIRY_INTERVAL);
      data.PutU32(n);
      Associative(old(data.data), [MESSAGE_EXPIRY_INTERVAL], U32Bytes(n));
      return Ok(());
    case TopicAlias(n) =>
      data.PutU8(TOPIC_ALIAS);
      data.PutU16(n);
      Associative(old(data.data), [TOPIC_ALIAS], U16Bytes(n));
      return Ok(());
    case ResponseTopic(s) => r := PutText(RESPONSE_TOPIC, s, data);
    case CorrelationData(s) => r := PutBinary(CORRELATION_DATA, s, data);
    case UserProperty(k, v) => r := WritePair(k, v, data);
    case SubscriptionIdentifier(id) => r := PutId(id, data);
    case ContentType(s) => r := PutText(CONTENT_TYPE, s, data);
  }

  /** A kind and a string, or the kind alone when the string is too long. */
  function TextBytes(kind: byte, s: Text): Text {
    [kind] + if Short(s) then BinaryBytes(s) else []
  }

  method PutText(kind: byte, s: Text, data: BytesMut) returns (r: Result<(), EncodeError>)
    modifies data
    ensures r == if Short(s) then Ok(()) else Err(PayloadTooLarge)
    ensures data.data == old(data.data) + TextBytes(kind, s)
  {
    data.PutU8(kind);
    EmptyJoin([kind]);
    var _ :- data.WriteString(s);
    Associative(old(data.data), [kind], BinaryBytes(s));
    return Ok(());
  }

  method PutBinary(kind: byte, s: Text, data: BytesMut) returns (r: Result<(), EncodeError>)
    modifies data
    ensures r == if Short(s) then Ok(()) else Err(PayloadTooLarge)
    ensures data.data == old(data.data) + TextBytes(kind, s)
  {
    data.PutU8(kind);
    EmptyJoin([kind]);
    var _ :- data.WriteBinary(s);
    Associative(old(data.data), [kind], BinaryBytes(s));
    return Ok(());
  }

  method PutOption(item: Option<Property>, data: BytesMut) returns (r: Result<(), EncodeError>)
    modifies data
    ensures r == if item.Some? && !item.value.Fits() then Err(PayloadTooLarge) else Ok(())
    ensures data.data == old(data.data) + if item.Some? then item.value.Printed() else []
  {
    match item
    case None => return Ok(());
    case Some(property) => r := Put(property, data);
  }

  method WriteIds(ids: seq<NonZeroUsize>, data: BytesMut) returns (r: Result<(), EncodeError>)
    modifies data
    ensures r == if AllFit(IdItems(ids)) then Ok(()) else Err(PayloadTooLarge)
    ensures data.data == old(data.data) + Front(IdItems(ids))
  {
    hide Property.Printed;
    for i := 0 to |ids|
      invariant Pending(old(data.data), IdItems(ids), data.data, IdItems(ids[i..]))
    {
      NextId(ids[i..]);
      assert ids[i..][1..] == ids[i + 1..];
      OnePut(old(data.data), IdItems(ids), data.data, Some(SubscriptionIdentifier(ids[i])), IdItems(ids[i + 1..]));
      var _ :- PutId(ids[i], data);
    }
    return Ok(());
  }

  method EncodeProperties(p: PublishProperties, data: BytesMut) returns (r: Result<(), EncodeError>)
    modifies data
    ensures r == if AllFit(Items(p)) then Ok(()) else Err(PayloadTooLarge)
    ensures data.data == old(data.data) + Front(Items(p))
  {
    hide Property.Printed, Front;
    ghost var start, items := data.data, Items(p);
    OnePut(start, items, data.data, Indicator(p), Cons(Expiry(p), Cons(Alias(p), FromResponse(p))));
    var _ :- PutOption(Indicator(p), data);
    OnePut(start, items, data.data, Expiry(p), Cons(Alias(p), FromResponse(p)));
    var _ :- PutOption(Expiry(p), data);
    OnePut(start, items, data.data, Alias(p), FromResponse(p));
    var _ :- PutOption(Alias(p), data);
    OnePut(start, items, data.data, Response(p), Cons(Correlation(p), FromUsers(p)));
    var _ :- PutOption(Response(p), data);
    OnePut(start, items, data.data, Correlation(p), FromUsers(p));
    var _ :- PutOption(Correlation(p), data);
    SomePut(start, items, data.data, UserItems(p.userProperties), FromIds(p));
    var _ :- WriteUsers(p.userProperties, data);
    SomePut(start, items, data.data, IdItems(p.subscriptionIdentifiers), Cons(Content(p), []));
    var _ :- WriteIds(p.subscriptionIdentifiers, data);
    OnePut(start, items, data.data, Content(p), []);
    var _ :- PutOption(Content(p), data);
    NonePending(start, items, data.data);
    return Ok(());
  }

  /** A property was read from `was` and put into p, and so much is left. */
  predicate ReadAs(was: Parsed<Property>, p: PublishProperties, r: Result<PublishProperties, DecodeError>, left: Text) {
    match was
    case Ok((item, rest)) => r == Ok(With(p, item)) && left == rest
    case Err(e) => r == Err(e)
  }

  method ReadNumber(p: PublishProperties, kind: byte, d: Bytes) returns (r: Result<PublishProperties, DecodeError>)
    requires kind in {PAYLOAD_FORMAT_INDICATOR, MESSAGE_EXPIRY_INTERVAL, TOPIC_ALIAS, SUBSCRIPTION_IDENTIFIER}
    modifies d
    ensures ReadAs(ReadValue(kind, old(d.data)), p, r, d.data)
  {
    if kind == PAYLOAD_FORMAT_INDICATOR {
      var on :- d.ReadBool();
      return Ok(p.(payloadFormatIndicator := Some(on)));
    } else if kind == MESSAGE_EXPIRY_INTERVAL {
      var n :- d.ReadU32();
      return Ok(p.(messageExpiryInterval := Some(n)));
    } else if kind == TOPIC_ALIAS {
      var n :- d.ReadU16();
      if n == 0 {
        return Err(InvalidTopicAlias);
      }
      return Ok(p.(topicAlias := Some(n)));
    } else {
      ghost var was := d.data;
      var n :- d.ReadRemainingLength();
      ReadInRange(was);
      if n == 0 {
        return Err(MalformedPacket);
      }
      return Ok(p.(subscriptionIdentifiers := p.subscriptionIdentifiers + [n]));
    }
  }

  method ReadText(p: PublishProperties, kind: byte, d: Bytes) returns (r: Result<PublishProperties, DecodeError>)
    requires kind in {RESPONSE_TOPIC, CORRELATION_DATA, CONTENT_TYPE}
    modifies d
    ensures ReadAs(ReadValue(kind, old(d.data)), p, r, d.data)
  {
    if kind == RESPONSE_TOPIC {
      var s :- d.ReadString();
      return Ok(p.(responseTopic := Some(s)));
    } else if kind == CORRELATION_DATA {
      var s :- d.ReadBinary();
      return Ok(p.(correlationData := Some(s)));
    } else {
      var s :- d.ReadString();
      return Ok(p.(contentType := Some(s)));
    }
  }

  method ReadPair(p: PublishProperties, d: Bytes) returns (r: Result<PublishProperties, DecodeError>)
    modifies d
    ensures ReadAs(ReadValue(USER_PROPERTY, old(d.data)), p, r, d.data)
  {
    hide ReadString;
    var k :- d.ReadString();
    var v :- d.ReadString();
    return Ok(p.(userProperties := p.userProperties + [(k, v)]));
  }

  /** One turn of the decoding loop. */
  method ReadInto(p: PublishProperties, d: Bytes) returns (r: Result<PublishProperties, DecodeError>)
    requires d.data != []
    modifies d
    ensures ReadAs(ReadItem(old(d.data)), p, r, d.data)
  {
    var kind :- d.ReadU8();
    if kind in {PAYLOAD_FORMAT_INDICATOR, MESSAGE_EXPIRY_INTERVAL, TOPIC_ALIAS, SUBSCRIPTION_IDENTIFIER} {
      r := ReadNumber(p, kind, d);
    } else if kind in {RESPONSE_TOPIC, CORRELATION_DATA, CONTENT_TYPE} {
      r := ReadText(p, kind, d);
    } else if kind == USER_PROPERTY {
      r := ReadPair(p, d);
    } else {
      return Err(InvalidPublishProperty(kind));
    }
  }

  method DecodePublishProperties(data: Text) returns (r: Result<PublishProperties, DecodeError>)
    ensures r == DecodeProperties(data)
  {
    var d := new Bytes(data);
    var p := NO_PROPERTIES;
    while d.data != []
      invariant AddProperties(NO_PROPERTIES, data) == AddProperties(p, d.data)
      decreases |d.data|
    {
      p :- ReadInto(p, d);
    }
    return Ok(SortIds(p));
  }

  method SizeOf(p: Publish, level: ProtocolLevel) returns (r: Result<nat, EncodeError>)
    ensures r == DeclaredSize(p, level)
  {
    var len := 2 + |p.topic| + if p.qos != AtMostOnce then 2 else 0;
    var propertiesLen :- BytesLength(p.properties);
    if level == V5 {
      var n :- DeclaredLength(propertiesLen);
      len := len + n + propertiesLen;
    }
    return Ok(len + |p.payload|);
  }

  method WriteSection(p: PublishProperties, data: BytesMut) returns (r: Result<(), EncodeError>)
    modifies data
    ensures r == if AllFit(Items(p)) && AllDeclared(Items(p)).Ok? && AllDeclared(Items(p)).value <= MAX_VARINT
                 then Ok(()) else Err(PayloadTooLarge)
    ensures AllDeclared(Items(p)).Ok? && AllDeclared(Items(p)).value <= MAX_VARINT ==>
              data.data == old(data.data) + SectionFront(p, V5)
    ensures r.Ok? ==> SectionFront(p, V5) == PropertySection(p, V5)
  {
    hide Items, Front;
    var len :- BytesLength(p);
    ghost var was := data.data;
    var _ :- data.WriteRemainingLength(len);
    Associative(was, VarInt(len), Front(Items(p)));
    if AllFit(Items(p)) {
      FrontWhole(Items(p));
    }
    r := EncodeProperties(p, data);
  }

  method WriteBody(p: Publish, data: BytesMut, level: ProtocolLevel) returns (r: Result<(), EncodeError>)
    requires DeclaredSize(p, level).Ok?
    modifies data
    ensures r == if Printable(p, level) then Ok(()) else Err(PayloadTooLarge)
    ensures data.data == old(data.data) + BodyFront(p, level)
    ensures r.Ok? ==> BodyFront(p, level) == Body(p, level)
  {
    ghost var was := data.data;
    EmptyJoin(was);
    var _ :- data.WriteString(p.topic);
    if p.packetId.Some? {
      data.PutU16(p.packetId.value);
    }
    hide Items, Front, AllFit, AllDeclared;
    DeclaredLengthIff(AllDeclared(Items(p.properties)).value);
    EmptyJoin(was + BinaryBytes(p.topic));
    if level == V5 {
      ghost var front := SectionFront(p.properties, level);
      Associative(was, BinaryBytes(p.topic), IdBytes(p.packetId));
      Associative(was, BinaryBytes(p.topic) + IdBytes(p.packetId), front);
      EmptyJoin(BinaryBytes(p.topic));
      var _ :- WriteSection(p.properties, data);
    }
    data.PutSlice(p.payload);
    Glued(was, BinaryBytes(p.topic), IdBytes(p.packetId), PropertySection(p.properties, level), p.payload);
    return Ok(());
  }

  lemma Glued(was: Text, a: Text, b: Text, c: Text, d: Text)
    ensures was + a + b + c + d == was + (a + b + c + d)
    ensures was + a + c + d == was + (a + [] + c + d) && was + a + b + d == was + (a + b + [] + d)
    ensures was + a + d == was + (a + [] + [] + d)
  {
  }

  method FlagOf(p: Publish) returns (flag: byte)
    ensures flag == Flags(p)
  {
    flag := 0;
    if p.dup {
      flag := flag + 8;
    }
    flag := flag + p.qos.ToNat() * 2;
    if p.retain {
      flag := flag + 1;
    }
  }

  /** Appends the packet, or as much of it as it takes to find that it cannot be printed. */
  method EncodePublish(p: Publish, data: BytesMut, level: ProtocolLevel, maxSize: nat) returns (r: Result<(), EncodeError>)
    modifies data
    ensures match Encode(p, level, maxSize)
      case Ok(printed) => r == Ok(()) && data.data == old(data.data) + printed
      case Err(e) => r == Err(e) && data.data == old(data.data) + Leaves(p, level, maxSize)
  {
    if p.qos != AtMostOnce && p.packetId.None? {
      EmptyJoin(data.data);
      return Err(RequirePacketId);
    }
    var flag := FlagOf(p);
    ghost var was, first: Text := data.data, [PUBLISH * 16 + flag];
    data.PutU8(PUBLISH * 16 + flag);
    hide Flags, BodyFront, Body, Printable;
    var size :- SizeOf(p, level);
    if size > maxSize {
      return Err(EncodeError.PacketTooLarge);
    }
    var _ :- data.WriteRemainingLength(size);
    Associative(was, first, VarInt(size));
    Associative(was, first + VarInt(size), BodyFront(p, level));
    r := WriteBody(p, data, level);
  }

  method DecodePublish(data: Text, level: ProtocolLevel, flags: byte) returns (r: Result<Publish, DecodeError>)
    ensures r == Decode(data, level, flags)
  {
    var d := new Bytes(data);
    var dup := flags / 8 % 2 > 0;
    var n := flags / 2 % 4;
    if ToQos(n).None? {
      return Err(InvalidQOS(n));
    }
    var qos := ToQos(n).value;
    var retain := flags % 2 > 0;
    var topic :- d.ReadString();
    var packetId := None;
    if qos != AtMostOnce {
      var id :- d.ReadU16();
      if id == 0 {
        return Err(InvalidPacketId);
      }
      packetId := Some(id);
    }
    var properties := NO_PROPERTIES;
    if level == V5 {
      var propertiesLen :- d.ReadRemainingLength();
      if |d.data| < propertiesLen {
        return Err(MalformedPacket);
      }
      ghost var was := d.data;
      var front := d.SplitTo(propertiesLen);
      assert front == was[..propertiesLen] && d.data == was[propertiesLen..];
      properties :- DecodePublishProperties(front);
    }
    return Ok(Publish(dup, qos, retain, topic, packetId, properties, d.data));
  }
}
