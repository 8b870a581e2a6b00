/** The bytes themselves: where the parts of a packet lie, and what is refused and how, by the numbers of
    MQTT 5.0 (sections 1.5, 2.1, 2.2.2, 3.3 and 3.8). */
module WireFormat {
  import opened Types
  import opened Wire
  import Utf8
  import opened Properties
  import opened FramerSpec
  import P = PublishSpec
  import S = SubscribeSpec

  // ----- numbers -----

  /** The number that groups of seven bits stand for, the lowest first. */
  function ValueOf(s: Text): nat {
    if s == [] then 0 else s[0] % 128 + 128 * ValueOf(s[1..])
  }

  /** A variable-byte integer: groups of seven bits, all but the last marked. */
  lemma {:induction false} VarIntDigits(n: nat)
    ensures var s := VarInt(n);
      && ValueOf(s) == n && s[|s| - 1] < 128
      && forall i | 0 <= i < |s| - 1 :: s[i] >= 128
  {
    var s := VarInt(n);
    if n >= 128 {
      VarIntDigits(n / 128);
      assert s[1..] == VarInt(n / 128);
    } else {
      assert s[1..] == [];
    }
  }

  /** The number that bytes stand for, the highest first. */
  function BigEndian(s: Text): nat {
    if s == [] then 0 else BigEndian(s[..|s| - 1]) * 256 + s[|s| - 1]
  }

  lemma FixedWidth(n: u16, m: u32)
    ensures |U16Bytes(n)| == 2 && BigEndian(U16Bytes(n)) == n
    ensures |U32Bytes(m)| == 4 && BigEndian(U32Bytes(m)) == m
  {
    var (a, b) := (U16Bytes(n), U32Bytes(m));
    assert a[..1] == [a[0]] && a[..0] == [] && [a[0]][..0] == [];
    assert b[..3] == [b[0], b[1], b[2]] && b[..3][..2] == [b[0], b[1]] && b[..3][..2][..1] == [b[0]];
    assert [b[0]][..0] == [] && BigEndian([b[0]]) == b[0];
    assert BigEndian([b[0], b[1]]) == b[0] as int * 256 + b[1] as int;
  }

  /** The identifiers of section 2.2.2.2. */
  lemma PropertyNumbers(item: Property)
    requires item.Fits()
    ensures item.Bytes()[0] ==
      match item
      case PayloadFormatIndicator(_) => 1
      case MessageExpiryInterval(_) => 2
      case ContentType(_) => 3
      case ResponseTopic(_) => 8
      case CorrelationData(_) => 9
      case SubscriptionIdentifier(_) => 11
      case TopicAlias(_) => 35
      case UserProperty(_, _) => 38
  {
  }

  /** A property that is read goes into its field, in the place of what was there; user properties and
      subscription identifiers go behind those that were. Any byte but 0 is true. */
  lemma PropertyTaken(p: PublishProperties, item: Property, tail: Text, b: byte)
    requires item.Fits() && item.WellFormed()
    ensures P.AddProperties(p, item.Bytes() + tail) == P.AddProperties(
      match item
      case PayloadFormatIndicator(on) => p.(payloadFormatIndicator := Some(on))
      case MessageExpiryInterval(n) => p.(messageExpiryInterval := Some(n))
      case TopicAlias(n) => p.(topicAlias := Some(n))
      case ResponseTopic(s) => p.(responseTopic := Some(s))
      case CorrelationData(s) => p.(correlationData := Some(s))
      case UserProperty(k, v) => p.(userProperties := p.userProperties + [(k, v)])
      case SubscriptionIdentifier(id) => p.(subscriptionIdentifiers := p.subscriptionIdentifiers + [id])
      case ContentType(s) => p.(contentType := Some(s)), tail)
    ensures ReadBool([b] + tail) == Ok((b != 0, tail))
  {
    PropertyRoundTrip(item, tail);
    assert ([b] + tail)[1..] == tail;
    hide Property.Bytes;
  }

  lemma IdentifierTaken(p: S.SubscribeProperties, id: NonZeroUsize, tail: Text)
    requires id <= MAX_VARINT
    ensures S.AddProperties(p, SubscriptionIdentifier(id).Bytes() + tail) == S.AddProperties(p.(id := Some(id)), tail)
  {
    PropertyRoundTrip(SubscriptionIdentifier(id), tail);
    hide Property.Bytes;
  }

  // ----- PUBLISH -----

  lemma FlagBits(p: Types.Publish)
    ensures var b := 3 * 16 + P.Flags(p);
      && b / 16 == 3 && (b / 8 % 2 == 1 <==> p.dup) && (b % 2 == 1 <==> p.retain)
      && b / 2 % 4 == (match p.qos case AtMostOnce => 0 case AtLeastOnce => 1 case ExactlyOnce => 2)
  {
  }

  /** The first byte has the type, the duplicate flag, the QoS in two bits and the retain flag; then come
      the length, the topic behind its own length, the identifier, the properties and the payload. */
  lemma PublishLayout(p: Types.Publish, level: ProtocolLevel, maxSize: nat)
    requires P.Encode(p, level, maxSize).Ok?
    ensures var e := P.Encode(p, level, maxSize).value;
      var qos := match p.qos case AtMostOnce => 0 case AtLeastOnce => 1 case ExactlyOnce => 2;
      && e != [] && e[0] / 16 == 3 && (e[0] / 8 % 2 == 1 <==> p.dup) && e[0] / 2 % 4 == qos && (e[0] % 2 == 1 <==> p.retain)
    ensures P.DeclaredSize(p, level).Ok? && P.Printable(p, level)
    ensures P.Encode(p, level, maxSize).value ==
      [P.Encode(p, level, maxSize).value[0]] + VarInt(P.DeclaredSize(p, level).value) + P.Body(p, level)
  {
    hide VarInt, P.Body, P.DeclaredSize, P.Printable, P.Encode;
    PublishPrinted(p, level, maxSize);
    FlagBits(p);
  }

  lemma PublishBodyLayout(p: Types.Publish, level: ProtocolLevel)
    requires P.Printable(p, level)
    ensures P.Body(p, level) ==
      U16Bytes(|p.topic|) + p.topic + (match p.packetId case Some(id) => U16Bytes(id) case None => []) +
      P.PropertySection(p.properties, level) + p.payload
  {
  }

  // ----- SUBSCRIBE -----

  /** One byte of options: QoS in two bits, no-local, retain-as-published, retain handling in two bits. */
  lemma OptionBits(f: S.SubscribeFilter)
    ensures var b := S.Options(f, V5);
      && b % 4 == (match f.qos case AtMostOnce => 0 case AtLeastOnce => 1 case ExactlyOnce => 2)
      && (b / 4 % 2 == 1 <==> f.noLocal) && (b / 8 % 2 == 1 <==> f.retainAsPublished)
      && b / 16 == (match f.retainHandling case OnEverySubscribe => 0 case OnNewSubscribe => 1 case Never => 2)
    ensures S.Options(f, V4) == S.Options(f, V5) % 4
  {
  }

  /** The first byte is fixed; the packet identifier leads. */
  lemma SubscribeLayout(p: S.Subscribe, level: ProtocolLevel, maxSize: nat)
    requires S.Encode(p, level, maxSize).Ok?
    ensures S.DeclaredSize(p, level).Ok? && S.Printable(p, level)
    ensures S.Encode(p, level, maxSize).value == [0x82] + VarInt(S.DeclaredSize(p, level).value) + S.Body(p, level)
    ensures S.Body(p, level) ==
      U16Bytes(p.packetId) + S.PropertySection(p.properties, level) + S.FiltersBytes(p.filters, level)
  {
    hide VarInt, S.DeclaredSize, S.PropertySection, S.FiltersBytes;
  }

  lemma PingLayout(d: Text, flag: byte, level: ProtocolLevel, maxSize: nat, others: Others)
    ensures EncodePacket(PingReq, level, maxSize, others) == Ok([0xC0, 0])
    ensures EncodePacket(PingResp, level, maxSize, others) == Ok([0xD0, 0])
    ensures flag / 16 == 12 ==> DecodePacket(d, flag, level, others) == Ok(PingReq)
    ensures flag / 16 == 13 ==> DecodePacket(d, flag, level, others) == Ok(PingResp)
  {
  }

  // ----- what is refused, and how -----

  lemma TypesRefused(d: Text, flag: byte, level: ProtocolLevel, others: Others)
    ensures flag / 16 == 0 ==> DecodePacket(d, flag, level, others) == Err(ReservedPacketType)
    ensures flag / 16 == 15 ==> DecodePacket(d, flag, level, others) == Err(UnknownPacketType(15))
  {
  }

  /** A PUBLISH with the QoS that does not exist, or with an identifier of 0. */
  lemma PublishRefused(d: Text, topic: Text, tail: Text, level: ProtocolLevel, flags: byte)
    requires Short(topic) && Utf8.ValidUtf8(topic)
    ensures flags / 2 % 4 == 3 ==> P.Decode(d, level, flags) == Err(InvalidQOS(3))
    ensures 1 <= flags / 2 % 4 <= 2 ==> P.Decode(BinaryBytes(topic) + ([0, 0] + tail), level, flags) == Err(InvalidPacketId)
  {
    BinaryRoundTrip(topic, [0, 0] + tail);
    U16RoundTrip(0, tail);
    assert U16Bytes(0) == [0, 0];
    hide BinaryBytes, ReadString, ReadU16, P.DecodeSection, U16Bytes;
  }

  /** A property that PUBLISH does not have, and an alias of 0. */
  lemma PropertyRefused(b: byte, tail: Text)
    ensures !Known(b) ==> P.AddProperties(NO_PROPERTIES, [b] + tail) == Err(InvalidPublishProperty(b))
    ensures P.AddProperties(NO_PROPERTIES, [35, 0, 0] + tail) == Err(InvalidTopicAlias)
  {
    U16RoundTrip(0, tail);
    assert U16Bytes(0) == [0, 0];
    assert ([35, 0, 0] + tail)[1..] == [0, 0] + tail;
  }

  lemma SubscribeRefused(d: Text, path: Text, options: byte, level: ProtocolLevel, flags: byte, b: byte, tail: Text)
    ensures flags % 16 != 2 ==> S.Decode(d, level, flags) == Err(MalformedPacket)
    ensures flags % 16 == 2 ==> S.Decode([0, 0] + tail, level, flags) == Err(InvalidPacketId)
    ensures options % 4 == 3 && (level == V5 || options < 4) ==> S.DecodeOptions(path, options, level) == Err(InvalidQOS(3))
    ensures options >= 4 ==> S.DecodeOptions(path, options, V4) == Err(MalformedPacket)
    ensures options % 4 < 3 && options / 16 % 4 == 3 ==>
      S.DecodeOptions(path, options, V5) == Err(InvalidRetainHandling(3))
    ensures b != 11 && b != 38 ==> S.AddProperties(S.NONE, [b] + tail) == Err(InvalidSubscribeProperty(b))
  {
    U16RoundTrip(0, tail);
    assert U16Bytes(0) == [0, 0];
  }
}
