/** SUBSCRIBE packets (libs/codec/src/subscribe.rs): what one prints as, what some bytes decode to,
    and exactly when decoding a printed packet gives that packet back. */
module SubscribeSpec {
  import opened Types
  import opened Seqs
  import opened Utf8
  import opened Wire
  import opened Properties
  import opened UserProperties

  const SUBSCRIBE: nat := 8

  datatype SubscribeProperties = SubscribeProperties(id: Option<NonZeroUsize>, userProperties: seq<(Text, Text)>)

  datatype SubscribeFilter = SubscribeFilter(
    path: Text,
    qos: Qos,
    noLocal: bool,
    retainAsPublished: bool,
    retainHandling: RetainHandling)

  datatype Subscribe = Subscribe(
    packetId: NonZeroU16,
    properties: SubscribeProperties,
    filters: seq<SubscribeFilter>)

  const NONE: SubscribeProperties := SubscribeProperties(None, [])

  // ---- properties ----

  function Id(p: SubscribeProperties): Option<Property> {
    if p.id.Some? then Some(SubscriptionIdentifier(p.id.value)) else None
  }

  function Items(p: SubscribeProperties): seq<Property> {
    Cons(Id(p), UserItems(p.userProperties))
  }

  /** The only kinds of property that SUBSCRIBE has. */
  predicate Carried(item: Property) {
    item.SubscriptionIdentifier? || item.UserProperty?
  }

  /** A second subscription identifier replaces the first. */
  function With(p: SubscribeProperties, item: Property): SubscribeProperties
    requires Carried(item)
  {
    match item
    case SubscriptionIdentifier(id) => p.(id := Some(id))
    case UserProperty(k, v) => p.(userProperties := p.userProperties + [(k, v)])
  }

  function ReadItem(d: Text): (r: Parsed<Property>)
    requires d != []
    ensures r.Ok? ==> |r.value.1| < |d| && Carried(r.value.0)
  {
    if d[0] == SUBSCRIPTION_IDENTIFIER || d[0] == USER_PROPERTY then ReadProperty(d)
    else Err(InvalidSubscribeProperty(d[0]))
  }

  function AddProperties(p: SubscribeProperties, d: Text): Result<SubscribeProperties, DecodeError>
    decreases |d|
  {
    if d == [] then Ok(p)
    else
      var (item, rest) :- ReadItem(d);
      AddProperties(With(p, item), rest)
  }

  /** Printed pairs decode to themselves, whatever comes after them. */
  lemma {:induction false} AddUsers(p: SubscribeProperties, users: seq<(Text, Text)>, tail: Text)
    requires Sendable(UserItems(users))
    ensures AddProperties(p, AllBytes(UserItems(users)) + tail) ==
      AddProperties(p.(userProperties := p.userProperties + users), tail)
    decreases |users|
  {
    if users == [] {
      assert p.userProperties + users == p.userProperties;
      assert [] + tail == tail;
    } else {
      var item := UserProperty(users[0].0, users[0].1);
      var rest := AllBytes(UserItems(users[1..]));
      NextUser(users);
      UserSendable(users);
      Associative(item.Bytes(), rest, tail);
      PropertyRoundTrip(item, rest + tail);
      OneUser(p, item, rest + tail);
      AddUsers(With(p, item), users[1..], tail);
      Shifted(p.userProperties, users);
    }
  }

  lemma UserSendable(users: seq<(Text, Text)>)
    requires users != []
    ensures Sendable(UserItems(users)) ==>
      && Short(users[0].0) && ValidUtf8(users[0].0) && Short(users[0].1) && ValidUtf8(users[0].1)
      && Sendable(UserItems(users[1..]))
  {
    assert UserItems(users)[1..] == UserItems(users[1..]);
  }

  lemma OneUser(p: SubscribeProperties, item: Property, rest: Text)
    requires Carried(item) && item.Fits() && ReadsBack(item, rest)
    ensures AddProperties(p, item.Bytes() + rest) == AddProperties(With(p, item), rest)
  {
  }

  /** A printed section decodes to the properties, and then decoding goes on with what comes after. */
  lemma PropertiesRoundTrip(p: SubscribeProperties, tail: Text)
    requires Sendable(Items(p))
    ensures AddProperties(NONE, AllBytes(Items(p)) + tail) == AddProperties(p, tail)
  {
    var users := UserItems(p.userProperties);
    ConsFits(Id(p), users);
    assert [] + p.userProperties == p.userProperties;
    if p.id.Some? {
      var item := SubscriptionIdentifier(p.id.value);
      Associative(item.Bytes(), AllBytes(users), tail);
      PropertyRoundTrip(item, AllBytes(users) + tail);
      OneUser(NONE, item, AllBytes(users) + tail);
      AddUsers(With(NONE, item), p.userProperties, tail);
    } else {
      AddUsers(NONE, p.userProperties, tail);
    }
  }

  lemma OneByteFails(p: SubscribeProperties, b: byte)
    ensures AddProperties(p, [b]).Err?
  {
    if b == SUBSCRIPTION_IDENTIFIER || b == USER_PROPERTY {
      NoOneByteProperty(b);
    }
  }

  lemma BoundariesOfItems(p: SubscribeProperties)
    ensures Boundaries(Items(p)) == if p.id.Some? && Boundary(p.id.value) then 1 else 0
  {
    BoundariesOfUsers(p.userProperties);
    if p.id.Some? {
      TailOfJoin([SubscriptionIdentifier(p.id.value)], UserItems(p.userProperties));
      assert Items(p)[1..] == UserItems(p.userProperties);
    }
  }

  // ---- filters ----

  function HandlingToNat(h: RetainHandling): nat {
    match h
    case OnEverySubscribe => 0
    case OnNewSubscribe => 1
    case Never => 2
  }

  function ToHandling(n: nat): Option<RetainHandling> {
    if n == 0 then Some(OnEverySubscribe) else if n == 1 then Some(OnNewSubscribe) else if n == 2 then Some(Never)
    else None
  }

  /** Two bits of QoS; at level 5, one each for the two flags and two of retain handling above. */
  function Options(f: SubscribeFilter, level: ProtocolLevel): (b: byte)
    ensures b < 0x40
  {
    f.qos.ToNat() +
      if level == V4 then 0
      else (if f.noLocal then 4 else 0) + (if f.retainAsPublished then 8 else 0) + 16 * HandlingToNat(f.retainHandling)
  }

  function FilterBytes(f: SubscribeFilter, level: ProtocolLevel): Text
    requires Short(f.path)
  {
    BinaryBytes(f.path) + [Options(f, level)]
  }

  function DecodeOptions(path: Text, options: byte, level: ProtocolLevel): Result<SubscribeFilter, DecodeError> {
    if level == V4 && options >= 4 then Err(MalformedPacket)
    else if ToQos(options % 4).None? then Err(InvalidQOS(options % 4))
    else
      var qos := ToQos(options % 4).value;
      if level == V4 then Ok(SubscribeFilter(path, qos, false, false, OnEverySubscribe))
      else if ToHandling(options / 16 % 4).None? then Err(InvalidRetainHandling(options / 16 % 4))
      else Ok(SubscribeFilter(path, qos, options / 4 % 2 == 1, options / 8 % 2 == 1, ToHandling(options / 16 % 4).value))
  }

  function DecodeFilter(d: Text, level: ProtocolLevel): (r: Parsed<SubscribeFilter>)
    ensures r.Ok? ==> |r.value.1| < |d|
  {
    var (path, d) :- ReadString(d);
    var (options, rest) :- ReadU8(d);
    var filter :- DecodeOptions(path, options, level);
    Ok((filter, rest))
  }

  /** Level 4 has no options but the QoS. */
  predicate Plain(f: SubscribeFilter) {
    !f.noLocal && !f.retainAsPublished && f.retainHandling == OnEverySubscribe
  }

  function PlainOf(f: SubscribeFilter): SubscribeFilter {
    f.(noLocal := false, retainAsPublished := false, retainHandling := OnEverySubscribe)
  }

  lemma OptionsRoundTrip(f: SubscribeFilter, level: ProtocolLevel)
    ensures DecodeOptions(f.path, Options(f, level), level) == Ok(if level == V4 then PlainOf(f) else f)
  {
    var b := Options(f, level);
    assert ToQos(f.qos.ToNat()) == Some(f.qos);
    assert ToHandling(HandlingToNat(f.retainHandling)) == Some(f.retainHandling);
    if level == V5 {
      assert b % 4 == f.qos.ToNat();
      assert b / 4 % 2 == 1 <==> f.noLocal;
      assert b / 8 % 2 == 1 <==> f.retainAsPublished;
      assert b / 16 % 4 == HandlingToNat(f.retainHandling);
    }
  }

  lemma FilterRoundTrip(f: SubscribeFilter, level: ProtocolLevel, rest: Text)
    requires Short(f.path) && ValidUtf8(f.path)
    ensures DecodeFilter(FilterBytes(f, level) + rest, level) == Ok((if level == V4 then PlainOf(f) else f, rest))
  {
    var options := [Options(f, level)];
    Associative(BinaryBytes(f.path), options, rest);
    BinaryRoundTrip(f.path, options + rest);
    assert (options + rest)[1..] == rest;
    OptionsRoundTrip(f, level);
  }

  predicate AllShort(filters: seq<SubscribeFilter>) {
    filters == [] || (Short(filters[0].path) && AllShort(filters[1..]))
  }

  predicate AllPathsValid(filters: seq<SubscribeFilter>) {
    filters == [] || (ValidUtf8(filters[0].path) && AllPathsValid(filters[1..]))
  }

  function FiltersBytes(filters: seq<SubscribeFilter>, level: ProtocolLevel): Text
    requires AllShort(filters)
  {
    if filters == [] then [] else FilterBytes(filters[0], level) + FiltersBytes(filters[1..], level)
  }

  function FiltersLength(filters: seq<SubscribeFilter>): nat {
    if filters == [] then 0 else 2 + |filters[0].path| + 1 + FiltersLength(filters[1..])
  }

  function AddFilters(filters: seq<SubscribeFilter>, d: Text, level: ProtocolLevel): Result<seq<SubscribeFilter>, DecodeError>
    decreases |d|
  {
    if d == [] then Ok(filters)
    else
      var (filter, rest) :- DecodeFilter(d, level);
      AddFilters(filters + [filter], rest, level)
  }

  function PlainAll(filters: seq<SubscribeFilter>): seq<SubscribeFilter> {
    if filters == [] then [] else [PlainOf(filters[0])] + PlainAll(filters[1..])
  }

  lemma {:induction false} FiltersRoundTrip(before: seq<SubscribeFilter>, filters: seq<SubscribeFilter>, level: ProtocolLevel)
    requires AllShort(filters) && AllPathsValid(filters)
    ensures AddFilters(before, FiltersBytes(filters, level), level) ==
      Ok(before + if level == V4 then PlainAll(filters) else filters)
    decreases |filters|
  {
    if filters == [] {
      assert before + [] == before;
    } else {
      hide FilterBytes, DecodeFilter, PlainOf;
      var read := if level == V4 then PlainOf(filters[0]) else filters[0];
      var rest := FiltersBytes(filters[1..], level);
      FilterRoundTrip(filters[0], level, rest);
      FiltersRoundTrip(before + [read], filters[1..], level);
      var others := if level == V4 then PlainAll(filters[1..]) else filters[1..];
      Associative(before, [read], others);
      assert [filters[0]] + filters[1..] == filters;
    }
  }

  lemma {:induction false} FiltersLengthIsActual(filters: seq<SubscribeFilter>, level: ProtocolLevel)
    requires AllShort(filters)
    ensures FiltersLength(filters) == |FiltersBytes(filters, level)|
  {
    if filters != [] {
      FiltersLengthIsActual(filters[1..], level);
    }
  }

  lemma {:induction false} PlainAllIff(filters: seq<SubscribeFilter>)
    ensures PlainAll(filters) == filters <==> forall i | 0 <= i < |filters| :: Plain(filters[i])
  {
    if filters != [] {
      PlainAllIff(filters[1..]);
      assert filters == [filters[0]] + filters[1..];
      assert PlainOf(filters[0]) == filters[0] <==> Plain(filters[0]);
    }
  }

  // ---- whole packets ----

  function DeclaredSize(p: Subscribe, level: ProtocolLevel): Result<nat, EncodeError> {
    if level == V5 then
      var properties :- AllDeclared(Items(p.properties));
      var n :- DeclaredLength(properties);
      Ok(2 + n + properties + FiltersLength(p.filters))
    else Ok(2 + FiltersLength(p.filters))
  }

  predicate Printable(p: Subscribe, level: ProtocolLevel) {
    AllShort(p.filters) && (level == V5 ==> AllFit(Items(p.properties)) && AllDeclared(Items(p.properties)).Ok?)
  }

  function PropertySection(p: SubscribeProperties, level: ProtocolLevel): Text
    requires level == V5 ==> AllFit(Items(p)) && AllDeclared(Items(p)).Ok?
  {
    if level == V5 then VarInt(AllDeclared(Items(p)).value) + AllBytes(Items(p)) else []
  }

  function Body(p: Subscribe, level: ProtocolLevel): Text
    requires Printable(p, level)
  {
    U16Bytes(p.packetId) + PropertySection(p.properties, level) + FiltersBytes(p.filters, level)
  }

  const FIRST_BYTE: byte := SUBSCRIBE * 16 + 2

  /** Unlike PUBLISH, a packet of exactly the largest size is refused. */
  function Encode(p: Subscribe, level: ProtocolLevel, maxSize: nat): Result<Text, EncodeError> {
    var size :- DeclaredSize(p, level);
    if size >= maxSize then Err(EncodeError.PacketTooLarge)
    else if size > MAX_VARINT || !Printable(p, level) then Err(PayloadTooLarge)
    else Ok([FIRST_BYTE] + VarInt(size) + Body(p, level))
  }

  /** What an attempt to print filters leaves behind: those before the first whose path is too long. */
  function FiltersFront(filters: seq<SubscribeFilter>, level: ProtocolLevel): Text {
    if filters == [] || !Short(filters[0].path) then []
    else FilterBytes(filters[0], level) + FiltersFront(filters[1..], level)
  }

  lemma {:induction false} FiltersFrontWhole(filters: seq<SubscribeFilter>, level: ProtocolLevel)
    requires AllShort(filters)
    ensures FiltersFront(filters, level) == FiltersBytes(filters, level)
  {
    if filters != [] {
      FiltersFrontWhole(filters[1..], level);
    }
  }

  /** What an attempt to print the section leaves behind. */
  function SectionFront(p: SubscribeProperties, level: ProtocolLevel): Text
    requires level == V5 ==> AllDeclared(Items(p)).Ok?
  {
    if level == V5 then VarInt(AllDeclared(Items(p)).value) + Front(Items(p)) else []
  }

  function BodyFront(p: Subscribe, level: ProtocolLevel): Text
    requires level == V5 ==> AllDeclared(Items(p.properties)).Ok?
  {
    U16Bytes(p.packetId) + SectionFront(p.properties, level)
    + if level == V5 && !AllFit(Items(p.properties)) then [] else FiltersFront(p.filters, level)
  }

  /** What a call that fails has printed by then. */
  function Leaves(p: Subscribe, level: ProtocolLevel, maxSize: nat): Text
    requires Encode(p, level, maxSize).Err?
  {
    var size := DeclaredSize(p, level);
    if size.Err? || size.value >= maxSize || size.value > MAX_VARINT then [FIRST_BYTE]
    else [FIRST_BYTE] + VarInt(size.value) + BodyFront(p, level)
  }

  /** A packet as large as the limit is the only one within it that is refused. */
  lemma LimitIff(p: Subscribe, level: ProtocolLevel, maxSize: nat)
    requires Printable(p, level)
    requires DeclaredSize(p, level).Ok? && DeclaredSize(p, level).value <= maxSize
    requires DeclaredSize(p, level).value <= MAX_VARINT
    ensures Encode(p, level, maxSize).Ok? <==> DeclaredSize(p, level).value != maxSize
    ensures Encode(p, level, maxSize).Err? ==> Encode(p, level, maxSize) == Err(EncodeError.PacketTooLarge)
  {
  }

  function DecodeSection(d: Text, level: ProtocolLevel): Parsed<SubscribeProperties> {
    if level == V5 then
      var (n, rest) :- ReadVarInt(d);
      if |rest| < n then Err(MalformedPacket)
      else
        var p :- AddProperties(NONE, rest[..n]);
        Ok((p, rest[n..]))
    else Ok((NONE, d))
  }

  function Decode(d: Text, level: ProtocolLevel, flags: byte): Result<Subscribe, DecodeError> {
    if flags % 16 != 2 then Err(MalformedPacket)
    else
      var (packetId, d) :- ReadU16(d);
      if packetId == 0 then Err(InvalidPacketId) else DecodeRest(packetId, d, level)
  }

  function DecodeRest(packetId: NonZeroU16, d: Text, level: ProtocolLevel): Result<Subscribe, DecodeError> {
    var (properties, payload) :- DecodeSection(d, level);
    var filters :- AddFilters([], payload, level);
    Ok(Subscribe(packetId, properties, filters))
  }

  predicate WellFormed(p: Subscribe) {
    AllWellFormed(Items(p.properties)) && AllPathsValid(p.filters)
  }

  predicate OffBoundary(p: SubscribeProperties) {
    p.id.Some? ==> !Boundary(p.id.value)
  }

  /** What a caller can check before encoding for the packet to survive. */
  predicate Faithful(p: Subscribe, level: ProtocolLevel) {
    match level
    case V4 => p.properties == NONE && forall i | 0 <= i < |p.filters| :: Plain(p.filters[i])
    case V5 => OffBoundary(p.properties)
  }

  /** By how much the declared size of an encoded packet is off. */
  lemma DeclaredSizeIsActual(p: Subscribe, level: ProtocolLevel)
    requires Printable(p, level) && DeclaredSize(p, level).Ok?
    ensures DeclaredSize(p, level).value == |Body(p, level)|
      + (if level == V5 && Boundary(AllDeclared(Items(p.properties)).value) then 1 else 0)
      + (if level == V5 && !OffBoundary(p.properties) then 1 else 0)
  {
    FiltersLengthIsActual(p.filters, level);
    if level == V5 {
      DeclaredIsActual(Items(p.properties));
      DeclaredLengthIff(AllDeclared(Items(p.properties)).value);
      BoundariesOfItems(p.properties);
    }
  }

  /** The property section reads back whole; with an identifier on a boundary it claims a byte that
      is no property, and the packet does not decode. */
  lemma SectionRead(p: SubscribeProperties, rest: Text)
    requires Sendable(Items(p)) && AllDeclared(Items(p)).Ok? && DeclaredLength(AllDeclared(Items(p)).value).Ok?
    ensures var r := DecodeSection(PropertySection(p, V5) + rest, V5);
      if OffBoundary(p) then r == Ok((p, rest)) else r.Err?
  {
    hide Items, AllBytes, AllDeclared, VarInt, ReadVarInt, DeclaredLength, Boundaries;
    var n, printed := AllDeclared(Items(p)).value, AllBytes(Items(p));
    DeclaredIsActual(Items(p));
    BoundariesOfItems(p);
    DeclaredLengthIff(n);
    Associative(VarInt(n), printed, rest);
    VarIntRoundTrip(n, printed + rest);
    if OffBoundary(p) {
      CutEarly(printed, rest, n);
      EmptyJoin(printed);
      assert printed[..n] == printed && printed[n..] + rest == rest;
      PropertiesRoundTrip(p, []);
    } else if rest != [] {
      CutLate(printed, [rest[0]], rest[1..]);
      assert [rest[0]] + rest[1..] == rest;
      PropertiesRoundTrip(p, [rest[0]]);
      OneByteFails(p, rest[0]);
    }
  }

  lemma HeaderRead(p: Subscribe, level: ProtocolLevel)
    requires Printable(p, level)
    ensures var rest := PropertySection(p.properties, level) + FiltersBytes(p.filters, level);
      ReadU16(Body(p, level)) == Ok((p.packetId, rest))
  {
    var section, filters := PropertySection(p.properties, level), FiltersBytes(p.filters, level);
    Associative(U16Bytes(p.packetId), section, filters);
    U16RoundTrip(p.packetId, section + filters);
  }

  /** Decoding what was encoded gives the packet back exactly when, at level 5, its subscription
      identifier does not lie on a boundary, at level 4, it has no properties and plain filters. */
  lemma RoundTripIff(p: Subscribe, level: ProtocolLevel, maxSize: nat)
    requires WellFormed(p) && Encode(p, level, maxSize).Ok?
    ensures Decode(Body(p, level), level, FIRST_BYTE) == Ok(p) <==> Faithful(p, level)
  {
    if level == V5 {
      RoundTripAtV5(p);
    } else {
      RoundTripAtV4(p);
      PlainAllIff(p.filters);
    }
  }

  lemma RoundTripAtV5(p: Subscribe)
    requires WellFormed(p) && Printable(p, V5) && DeclaredLength(AllDeclared(Items(p.properties)).value).Ok?
    ensures if OffBoundary(p.properties) then Decode(Body(p, V5), V5, FIRST_BYTE) == Ok(p)
            else Decode(Body(p, V5), V5, FIRST_BYTE).Err?
  {
    HeaderRead(p, V5);
    Reached(Body(p, V5), p.packetId, PropertySection(p.properties, V5) + FiltersBytes(p.filters, V5), V5);
    RestAtV5(p);
  }

  lemma Reached(d: Text, packetId: NonZeroU16, rest: Text, level: ProtocolLevel)
    requires ReadU16(d) == Ok((packetId, rest))
    ensures Decode(d, level, FIRST_BYTE) == DecodeRest(packetId, rest, level)
  {
  }

  lemma RestAtV5(p: Subscribe)
    requires WellFormed(p) && Printable(p, V5) && DeclaredLength(AllDeclared(Items(p.properties)).value).Ok?
    ensures var r := DecodeRest(p.packetId, PropertySection(p.properties, V5) + FiltersBytes(p.filters, V5), V5);
      if OffBoundary(p.properties) then r == Ok(p) else r.Err?
  {
    SectionRead(p.properties, FiltersBytes(p.filters, V5));
    FiltersRoundTrip([], p.filters, V5);
    EmptyJoin(p.filters);
  }

  lemma RestAtV4(p: Subscribe)
    requires WellFormed(p) && Printable(p, V4)
    ensures DecodeRest(p.packetId, [] + FiltersBytes(p.filters, V4), V4)
      == Ok(Subscribe(p.packetId, NONE, PlainAll(p.filters)))
  {
    EmptyJoin(FiltersBytes(p.filters, V4));
    FiltersRoundTrip([], p.filters, V4);
    EmptyJoin(PlainAll(p.filters));
  }

  lemma RoundTripAtV4(p: Subscribe)
    requires WellFormed(p) && Printable(p, V4)
    ensures Decode(Body(p, V4), V4, FIRST_BYTE) == Ok(Subscribe(p.packetId, NONE, PlainAll(p.filters)))
  {
    HeaderRead(p, V4);
    Reached(Body(p, V4), p.packetId, [] + FiltersBytes(p.filters, V4), V4);
    RestAtV4(p);
  }

}
