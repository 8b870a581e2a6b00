/** The encoder and decoder of SUBSCRIBE (libs/codec/src/subscribe.rs), which append to one buffer
    and consume another, each proved against the function of module SubscribeSpec. */
module SubscribePacket {
  import opened Types
  import opened Seqs
  import opened Wire
  import opened Buffers
  import opened Properties
  import opened UserProperties
  import opened SubscribeSpec

  method BytesLength(p: SubscribeProperties) returns (r: Result<nat, EncodeError>)
    ensures r == AllDeclared(Items(p))
  {
    ConsDeclared(Id(p), UserItems(p.userProperties));
    var len := 0;
    if p.id.Some? {
      var n :- DeclaredLength(p.id.value);
      len := len + 1 + n;
    }
    var users := UsersLength(p.userProperties);
    return Ok(len + users);
  }

  method EncodeProperties(p: SubscribeProperties, data: BytesMut) returns (r: Result<(), EncodeError>)
    modifies data
    ensures r == if AllFit(Items(p)) then Ok(()) else Err(PayloadTooLarge)
    ensures data.data == old(data.data) + Front(Items(p))
  {
    hide Property.Printed, Front;
    ghost var start, items := data.data, Items(p);
    OnePut(start, items, data.data, Id(p), UserItems(p.userProperties));
    EmptyJoin(data.data);
    if p.id.Some? {
      var _ :- PutId(p.id.value, data);
    }
    EmptyJoin(UserItems(p.userProperties));
    SomePut(start, items, data.data, UserItems(p.userProperties), []);
    var _ :- WriteUsers(p.userProperties, data);
    NonePending(start, items, data.data);
    return Ok(());
  }

  method DecodeProperties(data: Text) returns (r: Result<SubscribeProperties, DecodeError>)
    ensures r == AddProperties(NONE, data)
  {
    var d := new Bytes(data);
    var p := NONE;
    while d.data != []
      invariant AddProperties(NONE, data) == AddProperties(p, d.data)
      decreases |d.data|
    {
      p :- ReadInto(p, d);
    }
    return Ok(p);
  }

  /** One turn of the decoding loop. */
  method ReadInto(p: SubscribeProperties, d: Bytes) returns (r: Result<SubscribeProperties, DecodeError>)
    requires d.data != []
    modifies d
    ensures match ReadItem(old(d.data))
      case Ok((item, rest)) => r == Ok(With(p, item)) && d.data == rest
      case Err(e) => r == Err(e)
  {
    var kind :- d.ReadU8();
    if kind == SUBSCRIPTION_IDENTIFIER {
      ghost var was := d.data;
      var n :- d.ReadRemainingLength();
      ReadInRange(was);
      if n == 0 {
        return Err(MalformedPacket);
      }
      return Ok(p.(id := Some(n)));
    } else if kind == USER_PROPERTY {
      var k :- d.ReadString();
      var v :- d.ReadString();
      return Ok(p.(userProperties := p.userProperties + [(k, v)]));
    } else {
      return Err(InvalidSubscribeProperty(kind));
    }
  }

  method EncodeFilter(f: SubscribeFilter, data: BytesMut, level: ProtocolLevel) returns (r: Result<(), EncodeError>)
    modifies data
    ensures r == if Short(f.path) then Ok(()) else Err(PayloadTooLarge)
    ensures data.data == if r.Ok? then old(data.data) + FilterBytes(f, level) else old(data.data)
  {
    var _ :- data.WriteString(f.path);
    var flag: byte := f.qos.ToNat();
    if level == V5 {
      if f.noLocal {
        flag := flag + 4;
      }
      if f.retainAsPublished {
        flag := flag + 8;
      }
      flag := flag + HandlingToNat(f.retainHandling) * 16;
    }
    data.PutU8(flag);
    Associative(old(data.data), BinaryBytes(f.path), [flag]);
    return Ok(());
  }

  /** What a filter that cannot be read leaves. */
  function FilterLeft(d: Text): Text {
    match ReadString(d)
    case Err(_) => StringLeft(d)
    case Ok((path, rest)) => if rest == [] then [] else rest[1..]
  }

  method ReadFilter(d: Bytes, level: ProtocolLevel) returns (r: Result<SubscribeFilter, DecodeError>)
    modifies d
    ensures Reads(DecodeFilter(old(d.data), level), r, d.data) && (r.Err? ==> d.data == FilterLeft(old(d.data)))
  {
    var path :- d.ReadString();
    var options :- d.ReadU8();
    match level
    case V4 =>
      if options / 4 > 0 {
        return Err(MalformedPacket);
      }
      var qos := ToQos(options % 4);
      if qos.None? {
        return Err(InvalidQOS(options % 4));
      }
      return Ok(SubscribeFilter(path, qos.value, false, false, OnEverySubscribe));
    case V5 =>
      var qos := ToQos(options % 4);
      if qos.None? {
        return Err(InvalidQOS(options % 4));
      }
      var noLocal := options / 4 % 2 > 0;
      var retainAsPublished := options / 8 % 2 > 0;
      var retainHandling := ToHandling(options / 16 % 4);
      if retainHandling.None? {
        return Err(InvalidRetainHandling(options / 16 % 4));
      }
      return Ok(SubscribeFilter(path, qos.value, noLocal, retainAsPublished, retainHandling.value));
  }

  method PayloadLength(filters: seq<SubscribeFilter>) returns (len: nat)
    ensures len == FiltersLength(filters)
  {
    len := 0;
    for i := 0 to |filters|
      invariant FiltersLength(filters) == len + FiltersLength(filters[i..])
    {
      assert filters[i..][1..] == filters[i + 1..];
      len := len + 2 + |filters[i].path| + 1;
    }
  }

  method SizeOf(p: Subscribe, level: ProtocolLevel) returns (r: Result<nat, EncodeError>)
    ensures r == DeclaredSize(p, level)
  {
    var len := 2;
    if level == V5 {
      var propertiesLen :- BytesLength(p.properties);
      var n :- DeclaredLength(propertiesLen);
      len := len + n + propertiesLen;
    }
    var payload := PayloadLength(p.filters);
    return Ok(len + payload);
  }

  method WriteSection(p: SubscribeProperties, data: BytesMut) returns (r: Result<(), EncodeError>)
    modifies data
    ensures r == if AllFit(Items(p)) && AllDeclared(Items(p)).Ok? && AllDeclared(Items(p)).value <= MAX_VARINT
                 then Ok(()) else Err(PayloadTooLarge)
    ensures AllDeclared(Items(p)).Ok? && AllDeclared(Items(p)).value <= MAX_VARINT ==>
              data.data == old(data.data) + SectionFront(p, V5)
  {
    hide Items, Front;
    var len :- BytesLength(p);
    ghost var was := data.data;
    var _ :- data.WriteRemainingLength(len);
    Associative(was, VarInt(len), Front(Items(p)));
    r := EncodeProperties(p, data);
  }

  method WriteFilters(filters: seq<SubscribeFilter>, data: BytesMut, level: ProtocolLevel) returns (r: Result<(), EncodeError>)
    modifies data
    ensures r == if AllShort(filters) then Ok(()) else Err(PayloadTooLarge)
    ensures data.data == old(data.data) + FiltersFront(filters, level)
  {
    for i := 0 to |filters|
      invariant AllShort(filters) <==> AllShort(filters[i..])
      invariant old(data.data) + FiltersFront(filters, level) == data.data + FiltersFront(filters[i..], level)
    {
      assert filters[i..][1..] == filters[i + 1..];
      if Short(filters[i].path) {
        Associative(data.data, FilterBytes(filters[i], level), FiltersFront(filters[i + 1..], level));
      }
      EmptyJoin(data.data);
      var _ :- EncodeFilter(filters[i], data, level);
    }
    EmptyJoin(data.data);
    return Ok(());
  }

  method WriteBody(p: Subscribe, data: BytesMut, level: ProtocolLevel) returns (r: Result<(), EncodeError>)
    requires DeclaredSize(p, level).Ok?
    modifies data
    ensures r == if Printable(p, level) then Ok(()) else Err(PayloadTooLarge)
    ensures data.data == old(data.data) + BodyFront(p, level)
  {
    ghost var was, id, front, filters := data.data, U16Bytes(p.packetId), SectionFront(p.properties, level),
                                         FiltersFront(p.filters, level);
    data.PutU16(p.packetId);
    if level == V5 {
      DeclaredLengthIff(AllDeclared(Items(p.properties)).value);
    }
    hide Items, Front, AllFit, AllDeclared;
    EmptyJoin(was + id);
    EmptyJoin(id + front);
    Associative(was, id, front);
    Associative(was, id + front, filters);
    if level == V5 {
      var _ :- WriteSection(p.properties, data);
    }
    r := WriteFilters(p.filters, data, level);
  }

  /** What is printed whole is the body. */
  lemma WholeBody(p: Subscribe, level: ProtocolLevel)
    requires Printable(p, level)
    ensures BodyFront(p, level) == Body(p, level)
  {
    FiltersFrontWhole(p.filters, level);
    if level == V5 {
      FrontWhole(Items(p.properties));
    }
  }

  /** Appends the packet, or as much of it as it takes to find that it cannot be printed. */
  method EncodeSubscribe(p: Subscribe, data: BytesMut, level: ProtocolLevel, maxSize: nat)
    returns (r: Result<(), EncodeError>)
    modifies data
    ensures match Encode(p, level, maxSize)
      case Ok(printed) => r == Ok(()) && data.data == old(data.data) + printed
      case Err(e) => r == Err(e) && data.data == old(data.data) + Leaves(p, level, maxSize)
  {
    ghost var was := data.data;
    data.PutU8(FIRST_BYTE);
    var size :- SizeOf(p, level);
    if size >= maxSize {
      return Err(EncodeError.PacketTooLarge);
    }
    var _ :- data.WriteRemainingLength(size);
    Associative(was, [FIRST_BYTE], VarInt(size));
    Associative(was, [FIRST_BYTE] + VarInt(size), BodyFront(p, level));
    if Printable(p, level) {
      WholeBody(p, level);
    }
    hide BodyFront, Body, Printable;
    r := WriteBody(p, data, level);
  }

  method DecodeSubscribe(data: Text, level: ProtocolLevel, flags: byte) returns (r: Result<Subscribe, DecodeError>)
    ensures r == Decode(data, level, flags)
  {
    if flags % 16 != 2 {
      return Err(MalformedPacket);
    }
    var d := new Bytes(data);
    var packetId :- d.ReadU16();
    if packetId == 0 {
      return Err(InvalidPacketId);
    }
    var properties := NONE;
    if level == V5 {
      var propertiesLen :- d.ReadRemainingLength();
      if |d.data| < propertiesLen {
        return Err(MalformedPacket);
      }
      ghost var was := d.data;
      var front := d.SplitTo(propertiesLen);
      assert front == was[..propertiesLen] && d.data == was[propertiesLen..];
      properties :- DecodeProperties(front);
    }
    var filters := [];
    ghost var payload := d.data;
    while d.data != []
      invariant AddFilters([], payload, level) == AddFilters(filters, d.data, level)
      decreases |d.data|
    {
      var filter :- ReadFilter(d, level);
      filters := filters + [filter];
    }
    return Ok(Subscribe(packetId, properties, filters));
  }
}
