/** PUBLISH packets (libs/codec/src/publish.rs): what one prints as, what some bytes decode to, and
    exactly when decoding a printed packet gives that packet back. */
module PublishSpec {
  import opened Types
  import opened Seqs
  import opened Utf8
  import opened Wire
  import opened Properties
  import opened UserProperties

  const PUBLISH: nat := 3

  // ---- properties as a list, in the order they are printed ----

  function IdItems(ids: seq<NonZeroUsize>): seq<Property> {
    if ids == [] then [] else [SubscriptionIdentifier(ids[0])] + IdItems(ids[1..])
  }

  function Indicator(p: PublishProperties): Option<Property> {
    if p.payloadFormatIndicator.Some? then Some(PayloadFormatIndicator(p.payloadFormatIndicator.value)) else None
  }

  function Expiry(p: PublishProperties): Option<Property> {
    if p.messageExpiryInterval.Some? then Some(MessageExpiryInterval(p.messageExpiryInterval.value)) else None
  }

  function Alias(p: PublishProperties): Option<Property> {
    if p.topicAlias.Some? then Some(TopicAlias(p.topicAlias.value)) else None
  }

  function Response(p: PublishProperties): Option<Property> {
    if p.responseTopic.Some? then Some(ResponseTopic(p.responseTopic.value)) else None
  }

  function Correlation(p: PublishProperties): Option<Property> {
    if p.correlationData.Some? then Some(CorrelationData(p.correlationData.value)) else None
  }

  function Content(p: PublishProperties): Option<Property> {
    if p.contentType.Some? then Some(ContentType(p.contentType.value)) else None
  }

  function FromIds(p: PublishProperties): seq<Property> {
    IdItems(p.subscriptionIdentifiers) + Cons(Content(p), [])
  }

  function FromUsers(p: PublishProperties): seq<Property> {
    UserItems(p.userProperties) + FromIds(p)
  }

  function FromResponse(p: PublishProperties): seq<Property> {
    Cons(Response(p), Cons(Correlation(p), FromUsers(p)))
  }

  function Items(p: PublishProperties): seq<Property> {
    Cons(Indicator(p), Cons(Expiry(p), Cons(Alias(p), FromResponse(p))))
  }

  /** One property met while decoding: a second one of a kind that comes once replaces the first. */
  function With(p: PublishProperties, item: Property): PublishProperties {
    match item
    case PayloadFormatIndicator(on) => p.(payloadFormatIndicator := Some(on))
    case MessageExpiryInterval(n) => p.(messageExpiryInterval := Some(n))
    case TopicAlias(n) => p.(topicAlias := Some(n))
    case ResponseTopic(s) => p.(responseTopic := Some(s))
    case CorrelationData(s) => p.(correlationData := Some(s))
    case UserProperty(k, v) => p.(userProperties := p.userProperties + [(k, v)])
    case SubscriptionIdentifier(id) => p.(subscriptionIdentifiers := p.subscriptionIdentifiers + [id])
    case ContentType(s) => p.(contentType := Some(s))
  }

  function WithAll(p: PublishProperties, items: seq<Property>): PublishProperties
    decreases |items|
  {
    if items == [] then p else WithAll(With(p, items[0]), items[1..])
  }

  lemma {:induction false} WithAllJoin(p: PublishProperties, a: seq<Property>, b: seq<Property>)
    ensures WithAll(p, a + b) == WithAll(WithAll(p, a), b)
    decreases |a|
  {
    if a == [] {
      assert a + b == b;
    } else {
      TailOfJoin(a, b);
      WithAllJoin(With(p, a[0]), a[1..], b);
    }
  }

  lemma {:induction false} WithUsers(p: PublishProperties, users: seq<(Text, Text)>)
    ensures WithAll(p, UserItems(users)) == p.(userProperties := p.userProperties + users)
    decreases |users|
  {
    if users == [] {
      assert p.userProperties + users == p.userProperties;
    } else {
      var q := With(p, UserProperty(users[0].0, users[0].1));
      assert UserItems(users)[1..] == UserItems(users[1..]);
      WithUsers(q, users[1..]);
      Shifted(p.userProperties, users);
    }
  }

  lemma {:induction false} WithIds(p: PublishProperties, ids: seq<NonZeroUsize>)
    ensures WithAll(p, IdItems(ids)) == p.(subscriptionIdentifiers := p.subscriptionIdentifiers + ids)
    decreases |ids|
  {
    if ids == [] {
      assert p.subscriptionIdentifiers + ids == p.subscriptionIdentifiers;
    } else {
      assert IdItems(ids)[1..] == IdItems(ids[1..]);
      WithIds(With(p, SubscriptionIdentifier(ids[0])), ids[1..]);
      Shifted(p.subscriptionIdentifiers, ids);
    }
  }

  lemma WithCons(p: PublishProperties, item: Option<Property>, rest: seq<Property>)
    ensures WithAll(p, Cons(item, rest)) == WithAll(if item.Some? then With(p, item.value) else p, rest)
  {
    if item.Some? {
      var items := [item.value] + rest;
      assert items[1..] == rest;
      assert WithAll(p, items) == WithAll(With(p, items[0]), items[1..]);
    }
  }

  /** The printed list, met in its order, builds the properties it was printed from. */
  lemma ItemsRebuild(p: PublishProperties)
    ensures WithAll(NO_PROPERTIES, Items(p)) == p
  {
    var q := p.(userProperties := [], subscriptionIdentifiers := [], contentType := None);
    OptionsRebuild(p);
    ListsRebuild(q, p);
  }

  lemma OptionsRebuild(p: PublishProperties)
    ensures WithAll(NO_PROPERTIES, Items(p)) ==
      WithAll(p.(userProperties := [], subscriptionIdentifiers := [], contentType := None), FromUsers(p))
  {
    var q := NO_PROPERTIES.(payloadFormatIndicator := p.payloadFormatIndicator,
                            messageExpiryInterval := p.messageExpiryInterval,
                            topicAlias := p.topicAlias);
    NumbersRebuild(p);
    WithCons(q, Response(p), Cons(Correlation(p), FromUsers(p)));
    WithCons(q.(responseTopic := p.responseTopic), Correlation(p), FromUsers(p));
  }

  lemma NumbersRebuild(p: PublishProperties)
    ensures WithAll(NO_PROPERTIES, Items(p)) ==
      WithAll(NO_PROPERTIES.(payloadFormatIndicator := p.payloadFormatIndicator,
                             messageExpiryInterval := p.messageExpiryInterval,
                             topicAlias := p.topicAlias), FromResponse(p))
  {
    var q := NO_PROPERTIES;
    WithCons(q, Indicator(p), Cons(Expiry(p), Cons(Alias(p), FromResponse(p))));
    q := q.(payloadFormatIndicator := p.payloadFormatIndicator);
    WithCons(q, Expiry(p), Cons(Alias(p), FromResponse(p)));
    q := q.(messageExpiryInterval := p.messageExpiryInterval);
    WithCons(q, Alias(p), FromResponse(p));
  }

  lemma ListsRebuild(q: PublishProperties, p: PublishProperties)
    requires q.userProperties == [] && q.subscriptionIdentifiers == [] && q.contentType == None
    ensures WithAll(q, FromUsers(p)) == q.(userProperties := p.userProperties,
                                           subscriptionIdentifiers := p.subscriptionIdentifiers,
                                           contentType := p.contentType)
  {
    WithAllJoin(q, UserItems(p.userProperties), FromIds(p));
    WithUsers(q, p.userProperties);
    assert q.userProperties + p.userProperties == p.userProperties;
    var q' := q.(userProperties := p.userProperties);
    WithAllJoin(q', IdItems(p.subscriptionIdentifiers), Cons(Content(p), []));
    WithIds(q', p.subscriptionIdentifiers);
    assert q'.subscriptionIdentifiers + p.subscriptionIdentifiers == p.subscriptionIdentifiers;
    WithCons(q'.(subscriptionIdentifiers := p.subscriptionIdentifiers), Content(p), []);
  }

  // ---- sorting subscription identifiers ----

  predicate IsSorted(s: seq<NonZeroUsize>) {
    forall i | 0 < i < |s| :: s[i - 1] <= s[i]
  }

  function InsertSorted(x: NonZeroUsize, s: seq<NonZeroUsize>): seq<NonZeroUsize> {
    if s == [] || x <= s[0] then [x] + s else [s[0]] + InsertSorted(x, s[1..])
  }

  function Sort(s: seq<NonZeroUsize>): seq<NonZeroUsize> {
    if s == [] then [] else InsertSorted(s[0], Sort(s[1..]))
  }

  lemma {:induction false} InsertIsSorted(x: NonZeroUsize, s: seq<NonZeroUsize>)
    requires IsSorted(s)
    ensures var t := InsertSorted(x, s);
      IsSorted(t) && t != [] && (t[0] == x || (s != [] && t[0] == s[0]))
  {
    if s != [] && x > s[0] {
      InsertIsSorted(x, s[1..]);
    }
  }

  lemma {:induction false} InsertKeeps(x: NonZeroUsize, s: seq<NonZeroUsize>)
    ensures multiset(InsertSorted(x, s)) == multiset(s) + multiset{x}
  {
    if s != [] && x > s[0] {
      InsertKeeps(x, s[1..]);
      assert s == [s[0]] + s[1..];
    }
  }

  /** Sorting gives the same identifiers, as often, in order. */
  lemma {:induction false} SortExact(s: seq<NonZeroUsize>)
    ensures IsSorted(Sort(s)) && multiset(Sort(s)) == multiset(s) && |Sort(s)| == |s|
  {
    if s != [] {
      SortExact(s[1..]);
      InsertIsSorted(s[0], Sort(s[1..]));
      InsertKeeps(s[0], Sort(s[1..]));
      assert s == [s[0]] + s[1..];
    }
    assert |Sort(s)| == |multiset(Sort(s))| == |multiset(s)|;
  }

  lemma {:induction false} SortOfSorted(s: seq<NonZeroUsize>)
    requires IsSorted(s)
    ensures Sort(s) == s
  {
    if s != [] {
      SortOfSorted(s[1..]);
    }
  }

  // ---- decoding properties ----

  function ReadItem(d: Text): (r: Parsed<Property>)
    requires d != []
    ensures r.Ok? ==> |r.value.1| < |d|
  {
    if Known(d[0]) then ReadProperty(d) else Err(InvalidPublishProperty(d[0]))
  }

  function AddProperties(p: PublishProperties, d: Text): Result<PublishProperties, DecodeError>
    decreases |d|
  {
    if d == [] then Ok(p)
    else
      var (item, rest) :- ReadItem(d);
      AddProperties(With(p, item), rest)
  }

  function SortIds(p: PublishProperties): PublishProperties {
    p.(subscriptionIdentifiers := Sort(p.subscriptionIdentifiers))
  }

  function DecodeProperties(d: Text): Result<PublishProperties, DecodeError> {
    var p :- AddProperties(NO_PROPERTIES, d);
    Ok(SortIds(p))
  }

  lemma {:induction false} AddPrinted(p: PublishProperties, items: seq<Property>)
    requires AllFit(items) && AllWellFormed(items)
    ensures AddProperties(p, AllBytes(items)) == Ok(WithAll(p, items))
    decreases |items|
  {
    if items != [] {
      PropertyRoundTrip(items[0], AllBytes(items[1..]));
      AddPrinted(With(p, items[0]), items[1..]);
    }
  }

  /** A printed property section decodes to the properties, their identifiers sorted. */
  lemma PropertiesRoundTrip(p: PublishProperties)
    requires AllFit(Items(p)) && AllWellFormed(Items(p))
    ensures DecodeProperties(AllBytes(Items(p))) == Ok(SortIds(p))
  {
    AddPrinted(NO_PROPERTIES, Items(p));
    ItemsRebuild(p);
  }

  // ---- whole packets ----

  function Flags(p: Publish): (f: byte)
    ensures f < 16
  {
    (if p.dup then 8 else 0) + 2 * p.qos.ToNat() + (if p.retain then 1 else 0)
  }

  function DeclaredSize(p: Publish, level: ProtocolLevel): Result<nat, EncodeError> {
    var properties :- AllDeclared(Items(p.properties));
    var header := 2 + |p.topic| + if p.qos != AtMostOnce then 2 else 0;
    if level == V5 then
      var n :- DeclaredLength(properties);
      Ok(header + n + properties + |p.payload|)
    else Ok(header + |p.payload|)
  }

  predicate Printable(p: Publish, level: ProtocolLevel) {
    Short(p.topic) && (level == V5 ==> AllFit(Items(p.properties)) && AllDeclared(Items(p.properties)).Ok?)
  }

  function PropertySection(p: PublishProperties, level: ProtocolLevel): Text
    requires level == V5 ==> AllFit(Items(p)) && AllDeclared(Items(p)).Ok?
  {
    if level == V5 then VarInt(AllDeclared(Items(p)).value) + AllBytes(Items(p)) else []
  }

  function IdBytes(id: Option<NonZeroU16>): Text {
    if id.Some? then U16Bytes(id.value) else []
  }

  function Body(p: Publish, level: ProtocolLevel): Text
    requires Printable(p, level)
  {
    BinaryBytes(p.topic) + IdBytes(p.packetId) + PropertySection(p.properties, level) + p.payload
  }

  function Encode(p: Publish, level: ProtocolLevel, maxSize: nat): Result<Text, EncodeError> {
    if p.qos != AtMostOnce && p.packetId.None? then Err(RequirePacketId)
    else
      var size :- DeclaredSize(p, level);
      if size > maxSize then Err(EncodeError.PacketTooLarge)
      else if size > MAX_VARINT || !Printable(p, level) then Err(PayloadTooLarge)
      else Ok([PUBLISH * 16 + Flags(p)] + VarInt(size) + Body(p, level))
  }

  /** What an attempt to print the section leaves behind. */
  function SectionFront(p: PublishProperties, level: ProtocolLevel): Text
    requires level == V5 ==> AllDeclared(Items(p)).Ok?
  {
    if level == V5 then VarInt(AllDeclared(Items(p)).value) + Front(Items(p)) else []
  }

  function BodyFront(p: Publish, level: ProtocolLevel): Text
    requires level == V5 ==> AllDeclared(Items(p.properties)).Ok?
  {
    if !Short(p.topic) then []
    else if Printable(p, level) then Body(p, level)
    else BinaryBytes(p.topic) + IdBytes(p.packetId) + SectionFront(p.properties, level)
  }

  /** What a call that fails has printed by then. */
  function Leaves(p: Publish, level: ProtocolLevel, maxSize: nat): Text
    requires Encode(p, level, maxSize).Err?
  {
    var first: byte := PUBLISH * 16 + Flags(p);
    var size := DeclaredSize(p, level);
    if p.qos != AtMostOnce && p.packetId.None? then []
    else if size.Err? || size.value > maxSize || size.value > MAX_VARINT then [first]
    else [first] + VarInt(size.value) + BodyFront(p, level)
  }

  /** A packet may be exactly as large as the limit. */
  lemma LimitIff(p: Publish, level: ProtocolLevel, maxSize: nat)
    requires (p.qos == AtMostOnce || p.packetId.Some?) && Printable(p, level)
    requires DeclaredSize(p, level).Ok? && DeclaredSize(p, level).value <= MAX_VARINT
    ensures Encode(p, level, maxSize).Ok? <==> DeclaredSize(p, level).value <= maxSize
    ensures Encode(p, level, maxSize).Err? ==> Encode(p, level, maxSize) == Err(EncodeError.PacketTooLarge)
  {
  }

  function DecodeId(d: Text, qos: Qos): Parsed<Option<NonZeroU16>> {
    if qos == AtMostOnce then Ok((None, d))
    else
      var (n, rest) :- ReadU16(d);
      if n == 0 then Err(InvalidPacketId) else Ok((Some(n), rest))
  }

  function DecodeSection(d: Text, level: ProtocolLevel): Parsed<PublishProperties> {
    if level == V5 then
      var (n, rest) :- ReadVarInt(d);
      if |rest| < n then Err(MalformedPacket)
      else
        var p :- DecodeProperties(rest[..n]);
        Ok((p, rest[n..]))
    else Ok((NO_PROPERTIES, d))
  }

  function Decode(d: Text, level: ProtocolLevel, flags: byte): Result<Publish, DecodeError> {
    var n := flags / 2 % 4;
    if ToQos(n).None? then Err(InvalidQOS(n))
    else
      var qos := ToQos(n).value;
      var (topic, d) :- ReadString(d);
      var (packetId, d) :- DecodeId(d, qos);
      var (properties, payload) :- DecodeSection(d, level);
      Ok(Publish(flags / 8 % 2 == 1, qos, flags % 2 == 1, topic, packetId, properties, payload))
  }

  /** Its strings are strings. */
  predicate WellFormed(p: Publish) {
    ValidUtf8(p.topic) && AllWellFormed(Items(p.properties))
  }

  /** A packet identifier goes with QoS 1 and 2 and no other. */
  predicate IdMatchesQos(p: Publish) {
    p.packetId.Some? <==> p.qos != AtMostOnce
  }

  predicate OffBoundary(ids: seq<NonZeroUsize>) {
    forall i | 0 <= i < |ids| :: !Boundary(ids[i])
  }

  /** What a caller can check before encoding for the packet to survive. */
  predicate Faithful(p: Publish, level: ProtocolLevel) {
    && IdMatchesQos(p)
    && match level
       case V4 => p.properties == NO_PROPERTIES
       case V5 => OffBoundary(p.properties.subscriptionIdentifiers)
  }

  function Canonical(p: Publish): Publish {
    p.(properties := SortIds(p.properties))
  }

  lemma {:induction false} BoundariesOfIds(ids: seq<NonZeroUsize>)
    ensures Boundaries(IdItems(ids)) == 0 <==> OffBoundary(ids)
  {
    if ids != [] {
      BoundariesOfIds(ids[1..]);
      assert OffBoundary(ids) <==> !Boundary(ids[0]) && OffBoundary(ids[1..]) by {
        assert ids == [ids[0]] + ids[1..];
      }
    }
  }

  lemma BoundariesOfItems(p: PublishProperties)
    ensures Boundaries(Items(p)) == Boundaries(IdItems(p.subscriptionIdentifiers))
    ensures Boundaries(Items(p)) == 0 <==> OffBoundary(p.subscriptionIdentifiers)
  {
    ConsBoundaries(Indicator(p), Cons(Expiry(p), Cons(Alias(p), FromResponse(p))));
    ConsBoundaries(Expiry(p), Cons(Alias(p), FromResponse(p)));
    ConsBoundaries(Alias(p), FromResponse(p));
    ConsBoundaries(Response(p), Cons(Correlation(p), FromUsers(p)));
    ConsBoundaries(Correlation(p), FromUsers(p));
    BoundariesOfJoin(UserItems(p.userProperties), FromIds(p));
    BoundariesOfUsers(p.userProperties);
    BoundariesOfJoin(IdItems(p.subscriptionIdentifiers), Cons(Content(p), []));
    BoundariesOfIds(p.subscriptionIdentifiers);
    ConsBoundaries(Content(p), []);
  }

  /** By how much the declared size of an encoded packet is off. */
  lemma DeclaredSizeIsActual(p: Publish, level: ProtocolLevel)
    requires Printable(p, level) && DeclaredSize(p, level).Ok? && (p.qos == AtMostOnce || p.packetId.Some?)
    ensures DeclaredSize(p, level).value == |Body(p, level)|
      + (if level == V5 && Boundary(AllDeclared(Items(p.properties)).value) then 1 else 0)
      + (if level == V5 then Boundaries(IdItems(p.properties.subscriptionIdentifiers)) else 0)
      - (if IdMatchesQos(p) then 0 else 2)
  {
    if level == V5 {
      DeclaredIsActual(Items(p.properties));
      DeclaredLengthIff(AllDeclared(Items(p.properties)).value);
      BoundariesOfItems(p.properties);
    }
  }

  /** The bytes that are left to read after the topic and the packet identifier. */
  lemma HeaderRead(p: Publish, level: ProtocolLevel)
    requires Printable(p, level) && ValidUtf8(p.topic) && IdMatchesQos(p)
    ensures var rest := PropertySection(p.properties, level) + p.payload;
      Decode(Body(p, level), level, PUBLISH * 16 + Flags(p)) ==
        match DecodeSection(rest, level)
        case Err(e) => Err(e)
        case Ok((properties, payload)) => Ok(p.(properties := properties, payload := payload))
  {
    var id, section := IdBytes(p.packetId), PropertySection(p.properties, level);
    var rest := section + p.payload;
    Regrouped(BinaryBytes(p.topic), id, section, p.payload);
    BinaryRoundTrip(p.topic, id + rest);
    assert ReadString(Body(p, level)) == Ok((p.topic, id + rest));
    IdRead(p, rest);
    FlagsRead(p);
  }

  lemma IdRead(p: Publish, rest: Text)
    requires IdMatchesQos(p)
    ensures DecodeId(IdBytes(p.packetId) + rest, p.qos) == Ok((p.packetId, rest))
  {
    if p.packetId.Some? {
      U16RoundTrip(p.packetId.value, rest);
    } else {
      assert [] + rest == rest;
    }
  }

  lemma FlagsRead(p: Publish)
    ensures var flags := PUBLISH * 16 + Flags(p);
      ToQos(flags / 2 % 4) == Some(p.qos) && p.dup == (flags / 8 % 2 == 1) && p.retain == (flags % 2 == 1)
  {
  }

  /** The property section reads back whole, or, when an identifier lies on a boundary, the decoder
      takes the front of the payload for properties. */
  lemma SectionRead(p: Publish)
    requires Printable(p, V5) && WellFormed(p) && DeclaredLength(AllDeclared(Items(p.properties)).value).Ok?
    ensures var r := DecodeSection(PropertySection(p.properties, V5) + p.payload, V5);
      if OffBoundary(p.properties.subscriptionIdentifiers) then r == Ok((SortIds(p.properties), p.payload))
      else r.Ok? ==> |r.value.1| < |p.payload|
  {
    var items := Items(p.properties);
    var n, printed := AllDeclared(items).value, AllBytes(items);
    DeclaredIsActual(items);
    BoundariesOfItems(p.properties);
    DeclaredLengthIff(n);
    assert PropertySection(p.properties, V5) + p.payload == VarInt(n) + (printed + p.payload);
    VarIntRoundTrip(n, printed + p.payload);
    if OffBoundary(p.properties.subscriptionIdentifiers) {
      assert (printed + p.payload)[..n] == printed && (printed + p.payload)[n..] == p.payload;
      PropertiesRoundTrip(p.properties);
    }
  }

  /** Decoding what was encoded gives the packet back, its subscription identifiers sorted, exactly
      when its identifier goes with its QoS and, at level 5, no subscription identifier lies on a
      boundary, at level 4, it has no properties. */
  lemma RoundTripIff(p: Publish, level: ProtocolLevel, maxSize: nat)
    requires WellFormed(p) && Encode(p, level, maxSize).Ok?
    ensures Decode(Body(p, level), level, PUBLISH * 16 + Flags(p)) == Ok(Canonical(p)) <==> Faithful(p, level)
  {
    if !IdMatchesQos(p) {
      FlagsRead(p);
      NoIdAtQos0(Body(p, level), level, PUBLISH * 16 + Flags(p));
    } else {
      HeaderRead(p, level);
      if level == V5 {
        SectionRead(p);
      } else {
        assert PropertySection(p.properties, level) + p.payload == p.payload;
        EmptyWhenSorted(p.properties);
      }
    }
  }

  /** A packet decoded at QoS 0 has no identifier. */
  lemma NoIdAtQos0(d: Text, level: ProtocolLevel, flags: byte)
    ensures Decode(d, level, flags).Ok? ==>
      IdMatchesQos(Decode(d, level, flags).value) && ToQos(flags / 2 % 4) == Some(Decode(d, level, flags).value.qos)
  {
  }

  lemma EmptyWhenSorted(p: PublishProperties)
    ensures SortIds(p) == NO_PROPERTIES <==> p == NO_PROPERTIES
  {
    SortExact(p.subscriptionIdentifiers);
  }

  // ---- what decoding can give ----

  /** Properties that came off the wire. */
  predicate Received(p: PublishProperties) {
    && (p.responseTopic.Some? ==> Short(p.responseTopic.value) && ValidUtf8(p.responseTopic.value))
    && (p.correlationData.Some? ==> Short(p.correlationData.value))
    && (p.contentType.Some? ==> Short(p.contentType.value) && ValidUtf8(p.contentType.value))
    && ReceivedUsers(p.userProperties)
    && (forall i | 0 <= i < |p.subscriptionIdentifiers| :: p.subscriptionIdentifiers[i] <= MAX_VARINT)
  }

  lemma {:induction false} AddedIsReceived(p: PublishProperties, d: Text)
    requires Received(p) && AddProperties(p, d).Ok?
    ensures Received(AddProperties(p, d).value)
    decreases |d|
  {
    if d != [] {
      ReadFits(d);
      var (item, rest) := ReadItem(d).value;
      AddedIsReceived(With(p, item), rest);
    }
  }

  lemma {:induction false} IdsSendable(ids: seq<NonZeroUsize>)
    requires forall i | 0 <= i < |ids| :: ids[i] <= MAX_VARINT
    ensures Sendable(IdItems(ids))
  {
    if ids != [] {
      IdsSendable(ids[1..]);
    }
  }

  lemma ReceivedIsSendable(p: PublishProperties)
    requires Received(p)
    ensures Sendable(Items(p))
  {
    ConsFits(Content(p), []);
    IdsSendable(p.subscriptionIdentifiers);
    AllFitJoin(IdItems(p.subscriptionIdentifiers), Cons(Content(p), []));
    UsersSendable(p.userProperties);
    AllFitJoin(UserItems(p.userProperties), FromIds(p));
    ConsFits(Correlation(p), FromUsers(p));
    ConsFits(Response(p), Cons(Correlation(p), FromUsers(p)));
    ConsFits(Alias(p), FromResponse(p));
    ConsFits(Expiry(p), Cons(Alias(p), FromResponse(p)));
    ConsFits(Indicator(p), Cons(Expiry(p), Cons(Alias(p), FromResponse(p))));
  }

  lemma SectionIsReceived(d: Text, level: ProtocolLevel)
    requires DecodeSection(d, level).Ok?
    ensures Received(DecodeSection(d, level).value.0)
    ensures IsSorted(DecodeSection(d, level).value.0.subscriptionIdentifiers)
    ensures level == V4 ==> DecodeSection(d, level).value.0 == NO_PROPERTIES
  {
    if level == V5 {
      var (n, rest) := ReadVarInt(d).value;
      var p := AddProperties(NO_PROPERTIES, rest[..n]).value;
      AddedIsReceived(NO_PROPERTIES, rest[..n]);
      SortExact(p.subscriptionIdentifiers);
      var ids := Sort(p.subscriptionIdentifiers);
      forall i | 0 <= i < |ids| ensures ids[i] <= MAX_VARINT {
        assert ids[i] in multiset(p.subscriptionIdentifiers);
      }
    }
  }

  /** Whatever decodes is well formed and in canonical order, with an identifier exactly at QoS 1
      and 2, and every part of it can be printed. */
  lemma DecodedForm(d: Text, level: ProtocolLevel, flags: byte)
    requires Decode(d, level, flags).Ok?
    ensures var p := Decode(d, level, flags).value;
      && WellFormed(p) && IdMatchesQos(p) && Canonical(p) == p
      && Short(p.topic) && AllFit(Items(p.properties))
      && (level == V4 ==> p.properties == NO_PROPERTIES)
  {
    var p := Decode(d, level, flags).value;
    var rest := ReadString(d).value.1;
    rest := DecodeId(rest, p.qos).value.1;
    assert DecodeSection(rest, level).value.0 == p.properties;
    SectionIsReceived(rest, level);
    ReceivedIsSendable(p.properties);
    SortOfSorted(p.properties.subscriptionIdentifiers);
  }

  /** A packet that was received and is sent on unchanged arrives unchanged, exactly when no
      subscription identifier in it lies on a boundary. */
  lemma ForwardedIff(d: Text, level: ProtocolLevel, flags: byte, maxSize: nat)
    requires Decode(d, level, flags).Ok? && Encode(Decode(d, level, flags).value, level, maxSize).Ok?
    ensures var p := Decode(d, level, flags).value;
      Decode(Body(p, level), level, PUBLISH * 16 + Flags(p)) == Ok(p) <==>
        OffBoundary(p.properties.subscriptionIdentifiers)
  {
    hide Decode, Encode, Body, WellFormed, Canonical, AllFit;
    DecodedForm(d, level, flags);
    ReceivedSurvivesIff(Decode(d, level, flags).value, level, maxSize);
  }

  lemma ReceivedSurvivesIff(p: Publish, level: ProtocolLevel, maxSize: nat)
    requires Encode(p, level, maxSize).Ok?
    requires WellFormed(p) && IdMatchesQos(p) && Canonical(p) == p && (level == V4 ==> p.properties == NO_PROPERTIES)
    ensures Decode(Body(p, level), level, PUBLISH * 16 + Flags(p)) == Ok(p) <==>
      OffBoundary(p.properties.subscriptionIdentifiers)
  {
    hide Decode, Encode, Body, WellFormed;
    RoundTripIff(p, level, maxSize);
  }
}
