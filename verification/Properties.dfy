/** MQTT 5.0 properties, one at a time and in lists: what PUBLISH and SUBSCRIBE print and read in
    their property sections (libs/codec/src/publish.rs:52-141, subscribe.rs:35-74) and the lengths
    they declare for them (libs/codec/src/macros.rs). */
module Properties {
  import opened Types
  import opened Seqs
  import opened Utf8
  import opened Wire

  const PAYLOAD_FORMAT_INDICATOR: byte := 0x01
  const MESSAGE_EXPIRY_INTERVAL: byte := 0x02
  const CONTENT_TYPE: byte := 0x03
  const RESPONSE_TOPIC: byte := 0x08
  const CORRELATION_DATA: byte := 0x09
  const SUBSCRIPTION_IDENTIFIER: byte := 0x0b
  const TOPIC_ALIAS: byte := 0x23
  const USER_PROPERTY: byte := 0x26

  datatype Property =
    | PayloadFormatIndicator(on: bool)
    | MessageExpiryInterval(seconds: u32)
    | TopicAlias(alias: NonZeroU16)
    | ResponseTopic(topic: Text)
    | CorrelationData(data: Text)
    | UserProperty(key: Text, value: Text)
    | SubscriptionIdentifier(id: NonZeroUsize)
    | ContentType(contentType: Text)
  {
    /** It can be printed. */
    predicate Fits() {
      match this
      case ResponseTopic(s) => Short(s)
      case CorrelationData(s) => Short(s)
      case UserProperty(k, v) => Short(k) && Short(v)
      case SubscriptionIdentifier(id) => id <= MAX_VARINT
      case ContentType(s) => Short(s)
      case _ => true
    }

    /** Its strings are strings, as the source's types see to. */
    predicate WellFormed() {
      match this
      case ResponseTopic(s) => ValidUtf8(s)
      case UserProperty(k, v) => ValidUtf8(k) && ValidUtf8(v)
      case ContentType(s) => ValidUtf8(s)
      case _ => true
    }

    function Bytes(): Text
      requires Fits()
    {
      match this
      case PayloadFormatIndicator(on) => [PAYLOAD_FORMAT_INDICATOR, if on then 1 else 0]
      case MessageExpiryInterval(n) => [MESSAGE_EXPIRY_INTERVAL] + U32Bytes(n)
      case TopicAlias(n) => [TOPIC_ALIAS] + U16Bytes(n)
      case ResponseTopic(s) => [RESPONSE_TOPIC] + BinaryBytes(s)
      case CorrelationData(s) => [CORRELATION_DATA] + BinaryBytes(s)
      case UserProperty(k, v) => [USER_PROPERTY] + BinaryBytes(k) + BinaryBytes(v)
      case SubscriptionIdentifier(id) => [SUBSCRIPTION_IDENTIFIER] + VarInt(id)
      case ContentType(s) => [CONTENT_TYPE] + BinaryBytes(s)
    }

    function Kind(): byte {
      match this
      case PayloadFormatIndicator(_) => PAYLOAD_FORMAT_INDICATOR
      case MessageExpiryInterval(_) => MESSAGE_EXPIRY_INTERVAL
      case TopicAlias(_) => TOPIC_ALIAS
      case ResponseTopic(_) => RESPONSE_TOPIC
      case CorrelationData(_) => CORRELATION_DATA
      case UserProperty(_, _) => USER_PROPERTY
      case SubscriptionIdentifier(_) => SUBSCRIPTION_IDENTIFIER
      case ContentType(_) => CONTENT_TYPE
    }

    /** What an attempt to print it leaves behind: when it does not fit, what comes before the part
        that does not. */
    function Printed(): Text {
      if Fits() then Bytes()
      else [Kind()] + if UserProperty? && Short(key) then BinaryBytes(key) else []
    }

    function Declared(): (r: Result<nat, EncodeError>)
      ensures r.Err? ==> r.error == PayloadTooLarge
    {
      match this
      case PayloadFormatIndicator(_) => Ok(1 + 1)
      case MessageExpiryInterval(_) => Ok(1 + 4)
      case TopicAlias(_) => Ok(1 + 2)
      case ResponseTopic(s) => Ok(1 + 2 + |s|)
      case CorrelationData(s) => Ok(1 + 2 + |s|)
      case UserProperty(k, v) => Ok(1 + 2 + |k| + 2 + |v|)
      case SubscriptionIdentifier(id) =>
        var size :- DeclaredLength(id);
        Ok(1 + size)
      case ContentType(s) => Ok(1 + 2 + |s|)
    }

    predicate OnBoundary() {
      SubscriptionIdentifier? && Boundary(id)
    }
  }

  predicate Known(kind: byte) {
    kind in {PAYLOAD_FORMAT_INDICATOR, MESSAGE_EXPIRY_INTERVAL, CONTENT_TYPE, RESPONSE_TOPIC, CORRELATION_DATA,
             SUBSCRIPTION_IDENTIFIER, TOPIC_ALIAS, USER_PROPERTY}
  }

  function ReadProperty(d: Text): (r: Parsed<Property>)
    requires d != [] && Known(d[0])
    ensures r.Ok? ==> |r.value.1| < |d|
  {
    ReadValue(d[0], d[1..])
  }

  function ReadValue(kind: byte, rest: Text): (r: Parsed<Property>)
    requires Known(kind)
    ensures r.Ok? ==> |r.value.1| <= |rest|
  {
    if kind == PAYLOAD_FORMAT_INDICATOR then
      var (b, rest) :- ReadBool(rest);
      Ok((PayloadFormatIndicator(b), rest))
    else if kind == MESSAGE_EXPIRY_INTERVAL then
      var (n, rest) :- ReadU32(rest);
      Ok((MessageExpiryInterval(n), rest))
    else if kind == TOPIC_ALIAS then
      var (n, rest) :- ReadU16(rest);
      if n == 0 then Err(InvalidTopicAlias) else Ok((TopicAlias(n), rest))
    else if kind == RESPONSE_TOPIC then
      var (s, rest) :- ReadString(rest);
      Ok((ResponseTopic(s), rest))
    else if kind == CORRELATION_DATA then
      var (s, rest) :- ReadBinary(rest);
      Ok((CorrelationData(s), rest))
    else if kind == USER_PROPERTY then
      var (k, rest) :- ReadString(rest);
      var (v, rest) :- ReadString(rest);
      Ok((UserProperty(k, v), rest))
    else if kind == SUBSCRIPTION_IDENTIFIER then
      var (n, rest) :- ReadIdentifier(rest);
      Ok((SubscriptionIdentifier(n), rest))
    else
      var (s, rest) :- ReadString(rest);
      Ok((ContentType(s), rest))
  }

  function ReadIdentifier(d: Text): (r: Parsed<NonZeroUsize>)
    ensures r.Ok? ==> |r.value.1| < |d| && r.value.0 <= MAX_VARINT
  {
    var (n, rest) :- ReadVarInt(d);
    ReadInRange(d);
    if n == 0 then Err(MalformedPacket) else Ok((n, rest))
  }

  lemma ReadInRange(d: Text)
    requires ReadVarInt(d).Ok?
    ensures ReadVarInt(d).value.0 <= MAX_VARINT
  {
    VarIntForm(d, 4);
    BoundOfFour();
  }

  predicate ReadsBack(item: Property, rest: Text)
    requires item.Fits()
  {
    var d := item.Bytes() + rest;
    Known(d[0]) && ReadProperty(d) == Ok((item, rest))
  }

  /** A property prints as something that reads back as it. */
  lemma PropertyRoundTrip(item: Property, rest: Text)
    requires item.Fits() && item.WellFormed()
    ensures ReadsBack(item, rest)
  {
    match item {
      case PayloadFormatIndicator(on) => assert (item.Bytes() + rest)[1..][1..] == rest;
      case MessageExpiryInterval(n) => ExpiryRoundTrip(n, rest);
      case TopicAlias(n) => AliasRoundTrip(n, rest);
      case ResponseTopic(s) => ResponseRoundTrip(s, rest);
      case CorrelationData(s) => CorrelationRoundTrip(s, rest);
      case UserProperty(k, v) => PairRoundTrip(k, v, rest);
      case SubscriptionIdentifier(id) => IdentifierRoundTrip(id, rest);
      case ContentType(s) => ContentRoundTrip(s, rest);
    }
  }

  lemma ExpiryRoundTrip(n: u32, rest: Text)
    ensures ReadsBack(MessageExpiryInterval(n), rest)
  {
    assert (MessageExpiryInterval(n).Bytes() + rest)[1..] == U32Bytes(n) + rest;
    U32RoundTrip(n, rest);
  }

  lemma AliasRoundTrip(n: NonZeroU16, rest: Text)
    ensures ReadsBack(TopicAlias(n), rest)
  {
    assert (TopicAlias(n).Bytes() + rest)[1..] == U16Bytes(n) + rest;
    U16RoundTrip(n, rest);
  }

  lemma ResponseRoundTrip(s: Text, rest: Text)
    requires Short(s) && ValidUtf8(s)
    ensures ReadsBack(ResponseTopic(s), rest)
  {
    Associative([RESPONSE_TOPIC], BinaryBytes(s), rest);
    BinaryRoundTrip(s, rest);
    StringRead(BinaryBytes(s) + rest, s, rest);
  }

  lemma CorrelationRoundTrip(s: Text, rest: Text)
    requires Short(s)
    ensures ReadsBack(CorrelationData(s), rest)
  {
    Associative([CORRELATION_DATA], BinaryBytes(s), rest);
    BinaryRoundTrip(s, rest);
    BinaryRead(BinaryBytes(s) + rest, s, rest);
  }

  lemma ContentRoundTrip(s: Text, rest: Text)
    requires Short(s) && ValidUtf8(s)
    ensures ReadsBack(ContentType(s), rest)
  {
    Associative([CONTENT_TYPE], BinaryBytes(s), rest);
    BinaryRoundTrip(s, rest);
    StringRead(BinaryBytes(s) + rest, s, rest);
  }

  lemma StringRead(d: Text, s: Text, rest: Text)
    requires ReadString(d) == Ok((s, rest))
    ensures ReadProperty([RESPONSE_TOPIC] + d) == Ok((ResponseTopic(s), rest))
    ensures ReadProperty([CONTENT_TYPE] + d) == Ok((ContentType(s), rest))
  {
    assert ([RESPONSE_TOPIC] + d)[1..] == d && ([CONTENT_TYPE] + d)[1..] == d;
  }

  lemma BinaryRead(d: Text, s: Text, rest: Text)
    requires ReadBinary(d) == Ok((s, rest))
    ensures ReadProperty([CORRELATION_DATA] + d) == Ok((CorrelationData(s), rest))
  {
    assert ([CORRELATION_DATA] + d)[1..] == d;
  }

  lemma PairRoundTrip(k: Text, v: Text, rest: Text)
    requires UserProperty(k, v).Fits() && UserProperty(k, v).WellFormed()
    ensures ReadsBack(UserProperty(k, v), rest)
  {
    var first, second := BinaryBytes(k), BinaryBytes(v);
    Regrouped([USER_PROPERTY], first, second, rest);
    BinaryRoundTrip(k, second + rest);
    BinaryRoundTrip(v, rest);
    PairRead(first + (second + rest), k, second + rest, v, rest);
  }

  lemma PairRead(d: Text, k: Text, d': Text, v: Text, rest: Text)
    requires ReadString(d) == Ok((k, d')) && ReadString(d') == Ok((v, rest))
    ensures ReadProperty([USER_PROPERTY] + d) == Ok((UserProperty(k, v), rest))
  {
    assert ([USER_PROPERTY] + d)[1..] == d;
  }

  lemma IdentifierRoundTrip(id: NonZeroUsize, rest: Text)
    requires id <= MAX_VARINT
    ensures ReadsBack(SubscriptionIdentifier(id), rest)
  {
    assert (SubscriptionIdentifier(id).Bytes() + rest)[1..] == VarInt(id) + rest;
    VarIntRoundTrip(id, rest);
  }

  /** Whatever is read can be printed again. */
  lemma ReadFits(d: Text)
    requires d != [] && Known(d[0]) && ReadProperty(d).Ok?
    ensures ReadProperty(d).value.0.Fits() && ReadProperty(d).value.0.WellFormed()
  {
  }

  /** One byte alone is never a property. */
  lemma NoOneByteProperty(b: byte)
    requires Known(b)
    ensures ReadProperty([b]).Err?
  {
    assert [b][1..] == [];
  }

  // ---- lists of properties ----

  predicate AllFit(items: seq<Property>) {
    items == [] || (items[0].Fits() && AllFit(items[1..]))
  }

  predicate AllWellFormed(items: seq<Property>) {
    items == [] || (items[0].WellFormed() && AllWellFormed(items[1..]))
  }

  function AllBytes(items: seq<Property>): Text
    requires AllFit(items)
  {
    if items == [] then [] else items[0].Bytes() + AllBytes(items[1..])
  }

  function AllDeclared(items: seq<Property>): (r: Result<nat, EncodeError>)
    ensures r.Err? ==> r.error == PayloadTooLarge
  {
    if items == [] then Ok(0)
    else
      var n :- items[0].Declared();
      var rest :- AllDeclared(items[1..]);
      Ok(n + rest)
  }

  lemma {:induction false} AllDeclaredJoin(a: seq<Property>, b: seq<Property>)
    ensures AllDeclared(a + b).Ok? <==> AllDeclared(a).Ok? && AllDeclared(b).Ok?
    ensures AllDeclared(a + b).Ok? ==> AllDeclared(a + b).value == AllDeclared(a).value + AllDeclared(b).value
  {
    if a == [] {
      assert a + b == b;
    } else {
      AllDeclaredJoin(a[1..], b);
      TailOfJoin(a, b);
    }
  }

  function Boundaries(items: seq<Property>): nat {
    if items == [] then 0 else (if items[0].OnBoundary() then 1 else 0) + Boundaries(items[1..])
  }

  /** How far the declared length is off: one byte for each identifier on a boundary. */
  lemma {:induction false} DeclaredIsActual(items: seq<Property>)
    requires AllFit(items) && AllDeclared(items).Ok?
    ensures AllDeclared(items).value == |AllBytes(items)| + Boundaries(items)
  {
    if items != [] {
      DeclaredIsActual(items[1..]);
      var item := items[0];
      if item.SubscriptionIdentifier? {
        DeclaredLengthIff(item.id);
      }
      assert item.Declared().value == |item.Bytes()| + if item.OnBoundary() then 1 else 0;
    }
  }

  lemma {:induction false} BoundariesOfJoin(a: seq<Property>, b: seq<Property>)
    ensures Boundaries(a + b) == Boundaries(a) + Boundaries(b)
  {
    if a == [] {
      assert a + b == b;
    } else {
      TailOfJoin(a, b);
      BoundariesOfJoin(a[1..], b);
    }
  }

  lemma {:induction false} AllFitJoin(a: seq<Property>, b: seq<Property>)
    ensures AllFit(a + b) <==> AllFit(a) && AllFit(b)
    ensures AllWellFormed(a + b) <==> AllWellFormed(a) && AllWellFormed(b)
  {
    if a == [] {
      assert a + b == b;
    } else {
      TailOfJoin(a, b);
      AllFitJoin(a[1..], b);
    }
  }

  lemma {:induction false} AllBytesJoin(a: seq<Property>, b: seq<Property>)
    requires AllFit(a) && AllFit(b)
    ensures AllFit(a + b) && AllBytes(a + b) == AllBytes(a) + AllBytes(b)
  {
    AllFitJoin(a, b);
    if a == [] {
      assert a + b == b;
    } else {
      AllBytesJoin(a[1..], b);
      TailOfJoin(a, b);
      AllBytesSplit(a + b);
      AllBytesSplit(a);
      Associative(a[0].Bytes(), AllBytes(a[1..]), AllBytes(b));
    }
  }

  lemma AllBytesSplit(items: seq<Property>)
    requires items != [] && AllFit(items)
    ensures AllBytes(items) == items[0].Bytes() + AllBytes(items[1..])
  {
  }

  predicate Sendable(items: seq<Property>) {
    AllFit(items) && AllWellFormed(items)
  }

  /** A property that need not be there, in front of others. */
  function Cons(item: Option<Property>, rest: seq<Property>): seq<Property> {
    match item
    case None => rest
    case Some(property) => [property] + rest
  }

  lemma ConsFits(item: Option<Property>, rest: seq<Property>)
    ensures AllFit(Cons(item, rest)) <==> (item.Some? ==> item.value.Fits()) && AllFit(rest)
    ensures AllWellFormed(Cons(item, rest)) <==> (item.Some? ==> item.value.WellFormed()) && AllWellFormed(rest)
    ensures AllFit(Cons(item, rest)) ==>
      AllBytes(Cons(item, rest)) == (if item.Some? then item.value.Bytes() else []) + AllBytes(rest)
  {
    if item.Some? {
      assert ([item.value] + rest)[1..] == rest;
    } else {
      assert AllFit(rest) ==> [] + AllBytes(rest) == AllBytes(rest);
    }
  }

  lemma ConsDeclared(item: Option<Property>, rest: seq<Property>)
    ensures AllDeclared(Cons(item, rest)).Ok? <==> (item.Some? ==> item.value.Declared().Ok?) && AllDeclared(rest).Ok?
    ensures AllDeclared(Cons(item, rest)).Ok? ==>
      AllDeclared(Cons(item, rest)).value
      == (if item.Some? then item.value.Declared().value else 0) + AllDeclared(rest).value
  {
    if item.Some? {
      assert ([item.value] + rest)[1..] == rest;
    }
  }

  lemma ConsBoundaries(item: Option<Property>, rest: seq<Property>)
    requires item.Some? ==> !item.value.SubscriptionIdentifier?
    ensures Boundaries(Cons(item, rest)) == Boundaries(rest)
  {
    if item.Some? {
      assert ([item.value] + rest)[1..] == rest;
    }
  }

  // ---- lists that need not fit ----

  /** What an attempt to print a list leaves behind: everything up to the first that does not fit. */
  function Front(items: seq<Property>): Text {
    if items == [] then []
    else items[0].Printed() + if items[0].Fits() then Front(items[1..]) else []
  }

  lemma {:induction false} FrontWhole(items: seq<Property>)
    requires AllFit(items)
    ensures Front(items) == AllBytes(items)
  {
    if items != [] {
      FrontWhole(items[1..]);
    }
  }

  lemma ConsFront(item: Option<Property>, rest: seq<Property>)
    ensures Front(Cons(item, rest)) ==
      if item.None? then Front(rest) else item.value.Printed() + if item.value.Fits() then Front(rest) else []
  {
    if item.Some? {
      TailOfJoin([item.value], rest);
      EmptyJoin(rest);
    }
  }

  lemma {:induction false} FrontJoin(a: seq<Property>, b: seq<Property>)
    ensures Front(a + b) == Front(a) + if AllFit(a) then Front(b) else []
  {
    if a == [] {
      EmptyJoin(b);
      EmptyJoin(Front(b));
    } else {
      TailOfJoin(a, b);
      FrontJoin(a[1..], b);
      if a[0].Fits() {
        Associative(a[0].Printed(), Front(a[1..]), if AllFit(a) then Front(b) else []);
      } else {
        EmptyJoin(Front(a));
      }
    }
  }
}
