/** Framing (libs/codec/src/codec.rs, packet.rs): how a whole stream of bytes parses, whatever the
    pieces it arrives in, and what a stream of printed packets parses to. */
module FramerSpec {
  import opened Types
  import opened Seqs
  import opened Wire
  import Properties
  import P = PublishSpec
  import S = SubscribeSpec

  datatype Packet =
    | Connect(level: ProtocolLevel, contents: Text)
    | Publish(publish: Types.Publish)
    | Subscribe(subscribe: S.Subscribe)
    | PingReq
    | PingResp
    | Other(kind: byte, contents: Text)

  const RESERVED: nat := 0
  const PINGREQ: nat := 12
  const PINGRESP: nat := 13
  const AUTH: nat := 15

  /** The parsers and printers of the packet types whose contents are not part of the model, and what
      a printer that fails has printed by then. */
  datatype Others = Others(
    decode: (Text, byte, ProtocolLevel) -> Result<Packet, DecodeError>,
    encode: (Packet, ProtocolLevel, nat) -> Result<Text, EncodeError>,
    leaves: (Packet, ProtocolLevel, nat) -> Text)

  function DecodePacket(d: Text, flag: byte, level: ProtocolLevel, others: Others): Result<Packet, DecodeError> {
    var kind: byte := flag / 16;
    if kind == RESERVED then Err(ReservedPacketType)
    else if kind == P.PUBLISH then
      var p :- P.Decode(d, level, flag);
      Ok(Packet.Publish(p))
    else if kind == S.SUBSCRIBE then
      var p :- S.Decode(d, level, flag);
      Ok(Packet.Subscribe(p))
    else if kind == PINGREQ then Ok(PingReq)
    else if kind == PINGRESP then Ok(PingResp)
    else if kind == AUTH then Err(UnknownPacketType(kind))
    else others.decode(d, flag, level)
  }

  function EncodePacket(packet: Packet, level: ProtocolLevel, maxSize: nat, others: Others): Result<Text, EncodeError> {
    match packet
    case Publish(p) => P.Encode(p, level, maxSize)
    case Subscribe(p) => S.Encode(p, level, maxSize)
    case PingReq => Ok([PINGREQ * 16, 0])
    case PingResp => Ok([PINGRESP * 16, 0])
    case _ => others.encode(packet, level, maxSize)
  }

  /** What a call that fails has printed by then. */
  function LeavesPacket(packet: Packet, level: ProtocolLevel, maxSize: nat, others: Others): Text
    requires EncodePacket(packet, level, maxSize, others).Err?
  {
    match packet
    case Publish(p) => P.Leaves(p, level, maxSize)
    case Subscribe(p) => S.Leaves(p, level, maxSize)
    case _ => others.leaves(packet, level, maxSize)
  }

  // ---- the next packet of a stream ----

  datatype DecoderState = Flag | Length(flag: byte) | Body(flag: byte, size: nat)

  datatype Finish = End | Failed(error: DecodeError)

  /** A packet, its size and the bytes after it; or how the stream ends. */
  datatype Next = NextPacket(packet: Packet, size: nat, rest: Text) | Over(finish: Finish)

  /** What comes of the bytes still to come, read on from where the decoder stands. */
  function NextFrom(state: DecoderState, s: Text, level: ProtocolLevel, maxSize: nat, others: Others): (r: Next)
    ensures r.NextPacket? ==> |r.rest| <= |s| && (state.Flag? ==> |r.rest| < |s|)
  {
    match state
    case Flag => if s == [] then Over(End) else NextLength(s[0], s[1..], level, maxSize, others)
    case Length(flag) => NextLength(flag, s, level, maxSize, others)
    case Body(flag, size) => NextBody(flag, size, s, level, others)
  }

  function NextLength(flag: byte, s: Text, level: ProtocolLevel, maxSize: nat, others: Others): (r: Next)
    ensures r.NextPacket? ==> |r.rest| <= |s|
  {
    var ahead := RemainingLength(s);
    if ahead.Err? then Over(Failed(ahead.error))
    else if ahead.value.None? then Over(Failed(UnexpectedEof))
    else
      RemainingLengthWithin(s);
      var (size, k) := ahead.value.value;
      if size > maxSize then Over(Failed(DecodeError.PacketTooLarge))
      else NextBody(flag, size, s[k..], level, others)
  }

  function NextBody(flag: byte, size: nat, s: Text, level: ProtocolLevel, others: Others): (r: Next)
    ensures r.NextPacket? ==> |r.rest| <= |s|
  {
    if |s| < size then Over(Failed(UnexpectedEof))
    else NextOn(DecodePacket(s[..size], flag, level, others), size, s[size..])
  }

  function NextOn(r: Result<Packet, DecodeError>, size: nat, rest: Text): Next {
    match r
    case Err(e) => Over(Failed(e))
    case Ok(packet) => NextPacket(packet, size, rest)
  }

  // ---- parsing a whole stream ----

  /** The packets of a stream with their sizes, how it ends and the protocol level by then. */
  datatype Parse = Parse(packets: seq<(Packet, nat)>, finish: Finish, level: ProtocolLevel) {
    function Prepend(front: seq<(Packet, nat)>): Parse {
      Parse(front + packets, finish, level)
    }
  }

  /** CONNECT sets the level that everything after it is read at. */
  function NextLevel(packet: Packet, level: ProtocolLevel): ProtocolLevel {
    if packet.Connect? then packet.level else level
  }

  /** After some packets the level is that of the last CONNECT among them, or else what it was. */
  ghost predicate LevelBy(packets: seq<(Packet, nat)>, before: ProtocolLevel, after: ProtocolLevel) {
    && ((forall i | 0 <= i < |packets| :: !packets[i].0.Connect?) ==> after == before)
    && (forall i | 0 <= i < |packets| && packets[i].0.Connect? && (forall j | i < j < |packets| :: !packets[j].0.Connect?) ::
          after == packets[i].0.level)
  }

  lemma NoLevelYet(level: ProtocolLevel)
    ensures LevelBy([], level, level)
  {
  }

  lemma LevelByMore(packets: seq<(Packet, nat)>, before: ProtocolLevel, packet: Packet, size: nat, after: ProtocolLevel)
    requires if packet.Connect? then after == packet.level else LevelBy(packets, before, after)
    ensures LevelBy(packets + [(packet, size)], before, after)
  {
    var all := packets + [(packet, size)];
    if packet.Connect? {
      assert all[|packets|].0.Connect?;
    } else {
      assert forall i | 0 <= i < |packets| :: all[i] == packets[i];
    }
  }

  function ParseStream(s: Text, level: ProtocolLevel, maxSize: nat, others: Others): Parse
    decreases |s|
  {
    match NextFrom(Flag, s, level, maxSize, others)
    case Over(finish) => Parse([], finish, level)
    case NextPacket(packet, size, rest) =>
      ParseStream(rest, NextLevel(packet, level), maxSize, others).Prepend([(packet, size)])
  }

  function ParseOn(r: Result<Packet, DecodeError>, size: nat, s: Text, level: ProtocolLevel, maxSize: nat, others: Others): Parse {
    match r
    case Err(e) => Parse([], Failed(e), level)
    case Ok(packet) => ParseStream(s, NextLevel(packet, level), maxSize, others).Prepend([(packet, size)])
  }

  /** The same from the middle of a packet and with a limit that may change with each packet. */
  function ParseLimited(state: DecoderState, s: Text, level: ProtocolLevel, limit: seq<(Packet, nat)> -> nat,
                        before: seq<(Packet, nat)>, others: Others): Parse
    decreases |s|, if state.Flag? then 0 else 1
  {
    match NextFrom(state, s, level, limit(before), others)
    case Over(finish) => Parse(before, finish, level)
    case NextPacket(packet, size, rest) =>
      ParseLimited(Flag, rest, NextLevel(packet, level), limit, before + [(packet, size)], others)
  }

  /** With one limit for all packets, this is the plain parse. */
  lemma {:induction false} OneLimit(s: Text, level: ProtocolLevel, maxSize: nat, limit: seq<(Packet, nat)> -> nat,
      before: seq<(Packet, nat)>, others: Others)
    requires forall packets :: limit(packets) == maxSize
    ensures ParseLimited(Flag, s, level, limit, before, others) ==
      ParseStream(s, level, maxSize, others).Prepend(before)
    decreases |s|
  {
    match NextFrom(Flag, s, level, maxSize, others)
    case Over(_) => EmptyJoin(before);
    case NextPacket(packet, size, rest) =>
      OneLimit(rest, NextLevel(packet, level), maxSize, limit, before + [(packet, size)], others);
      PrependTwice(ParseStream(rest, NextLevel(packet, level), maxSize, others), before, [(packet, size)]);
  }

  function Concat(chunks: seq<Text>): Text {
    if chunks == [] then [] else chunks[0] + Concat(chunks[1..])
  }

  // ---- frames ----

  /** What a frame at the front of a stream comes to: too large for the limit, cut short by the end of the
      stream, or what its body decodes to, with the bytes behind it left. */
  lemma FrameExact(flag: byte, size: nat, rest: Text, level: ProtocolLevel, maxSize: nat, others: Others)
    requires size <= MAX_VARINT
    ensures NextFrom(Flag, [flag] + VarInt(size) + rest, level, maxSize, others) ==
      if size > maxSize then Over(Failed(DecodeError.PacketTooLarge))
      else if |rest| < size then Over(Failed(UnexpectedEof))
      else match DecodePacket(rest[..size], flag, level, others)
        case Ok(packet) => NextPacket(packet, size, rest[size..])
        case Err(e) => Over(Failed(e))
  {
    var s := [flag] + VarInt(size) + rest;
    Associative([flag], VarInt(size), rest);
    assert s[0] == flag && s[1..] == VarInt(size) + rest;
    VarIntRoundTrip(size, rest);
    assert (VarInt(size) + rest)[|VarInt(size)|..] == rest;
    hide DecodePacket, VarInt, ReadVarInt;
  }

  /** Only an empty rest ends a stream well. */
  lemma EndIff(s: Text, level: ProtocolLevel, maxSize: nat, others: Others)
    ensures NextFrom(Flag, s, level, maxSize, others) == Over(End) <==> s == []
  {
  }

  // ---- printed packets ----

  /** A frame leads to the body it announces. */
  lemma FrameRead(flag: byte, size: nat, body: Text, tail: Text, level: ProtocolLevel, maxSize: nat, others: Others)
    requires size <= MAX_VARINT && size <= maxSize
    ensures NextFrom(Flag, [flag] + VarInt(size) + body + tail, level, maxSize, others) ==
      NextBody(flag, size, body + tail, level, others)
  {
    var s := [flag] + VarInt(size) + body + tail;
    var rest := body + tail;
    assert s == [flag] + (VarInt(size) + rest);
    assert s[0] == flag && s[1..] == VarInt(size) + rest;
    VarIntRoundTrip(size, rest);
    assert (VarInt(size) + rest)[|VarInt(size)|..] == rest;
  }

  /** A body of the announced size is decoded whole, and parsing goes on behind it. */
  lemma BodyRead(flag: byte, body: Text, tail: Text, level: ProtocolLevel, others: Others)
    ensures NextBody(flag, |body|, body + tail, level, others) ==
      NextOn(DecodePacket(body, flag, level, others), |body|, tail)
  {
    assert (body + tail)[..|body|] == body && (body + tail)[|body|..] == tail;
  }

  predicate WellFormed(packet: Packet) {
    match packet
    case Publish(p) => P.WellFormed(p)
    case Subscribe(p) => S.WellFormed(p)
    case PingReq => true
    case PingResp => true
    case _ => false
  }

  /** The length of a property section is not declared a byte too long. */
  predicate SectionOffBoundary(items: seq<Properties.Property>) {
    var n := Properties.AllDeclared(items);
    n.Ok? ==> !Boundary(n.value)
  }

  /** What a caller can check before encoding for the packet to survive in a stream. */
  predicate Survives(packet: Packet, level: ProtocolLevel) {
    match packet
    case Publish(p) => P.Faithful(p, level) && (level == V5 ==> SectionOffBoundary(P.Items(p.properties)))
    case Subscribe(p) => S.Faithful(p, level) && (level == V5 ==> SectionOffBoundary(S.Items(p.properties)))
    case _ => true
  }

  /** What arrives: the same, with subscription identifiers sorted. */
  function Arrived(packet: Packet): Packet {
    match packet
    case Publish(p) => Packet.Publish(P.Canonical(p))
    case _ => packet
  }

  predicate Encodable(packet: Packet, level: ProtocolLevel, maxSize: nat, others: Others) {
    WellFormed(packet) && EncodePacket(packet, level, maxSize, others).Ok?
  }

  /** The size that the frame announces. */
  function Announced(packet: Packet, level: ProtocolLevel): Result<nat, EncodeError> {
    match packet
    case Publish(p) => P.DeclaredSize(p, level)
    case Subscribe(p) => S.DeclaredSize(p, level)
    case _ => Ok(0)
  }

  lemma PublishRead(p: Types.Publish, level: ProtocolLevel, maxOut: nat, maxIn: nat, others: Others, tail: Text)
    requires P.WellFormed(p) && P.Encode(p, level, maxOut).Ok? && P.DeclaredSize(p, level).value <= maxIn
    requires Survives(Packet.Publish(p), level)
    ensures ParseStream(P.Encode(p, level, maxOut).value + tail, level, maxIn, others) ==
      ParseStream(tail, level, maxIn, others).Prepend([(Packet.Publish(P.Canonical(p)), P.DeclaredSize(p, level).value)])
  {
    var (flag: byte, body, packet) := (P.PUBLISH * 16 + P.Flags(p), P.Body(p, level), Packet.Publish(P.Canonical(p)));
    PublishPrinted(p, level, maxOut);
    PublishDecodesIff(p, level, maxOut, others);
    assert body[..|body|] == body;
    FrameRead(flag, |body|, body, tail, level, maxIn, others);
    BodyRead(flag, body, tail, level, others);
  }

  lemma PublishPrinted(p: Types.Publish, level: ProtocolLevel, maxSize: nat)
    requires P.Encode(p, level, maxSize).Ok?
    ensures P.Printable(p, level) && P.DeclaredSize(p, level).Ok? && P.DeclaredSize(p, level).value <= MAX_VARINT
    ensures P.Encode(p, level, maxSize).value ==
      [P.PUBLISH * 16 + P.Flags(p)] + VarInt(P.DeclaredSize(p, level).value) + P.Body(p, level)
  {
    hide P.Body, VarInt, P.DeclaredSize, P.Printable, P.Flags;
  }

  lemma PublishSizeIff(p: Types.Publish, level: ProtocolLevel)
    requires P.Printable(p, level) && P.DeclaredSize(p, level).Ok? && (p.qos == AtMostOnce || p.packetId.Some?)
    ensures P.IdMatchesQos(p) ==> |P.Body(p, level)| <= P.DeclaredSize(p, level).value
    ensures P.IdMatchesQos(p) && level == V5 ==>
      (|P.Body(p, level)| == P.DeclaredSize(p, level).value <==> Survives(Packet.Publish(p), level))
    ensures level == V4 && P.IdMatchesQos(p) ==> |P.Body(p, level)| == P.DeclaredSize(p, level).value
  {
    P.DeclaredSizeIsActual(p, level);
    P.BoundariesOfItems(p.properties);
  }

  lemma PublishDecodesIff(p: Types.Publish, level: ProtocolLevel, maxOut: nat, others: Others)
    requires P.WellFormed(p) && P.Encode(p, level, maxOut).Ok?
    requires P.DeclaredSize(p, level).value <= |P.Body(p, level)| || Survives(Packet.Publish(p), level)
    ensures var (body, size) := (P.Body(p, level), P.DeclaredSize(p, level).value);
      && size <= |body| && (Survives(Packet.Publish(p), level) ==> size == |body|)
      && (DecodePacket(body[..size], P.PUBLISH * 16 + P.Flags(p), level, others) == Ok(Packet.Publish(P.Canonical(p)))
          <==> Survives(Packet.Publish(p), level))
  {
    var (body, size) := (P.Body(p, level), P.DeclaredSize(p, level).value);
    PublishSizeIff(p, level);
    PublishKind(p, body[..size], level, others);
    if P.IdMatchesQos(p) {
      assert body[..size] == body;
      P.RoundTripIff(p, level, maxOut);
    } else {
      P.NoIdAtQos0(body[..size], level, P.PUBLISH * 16 + P.Flags(p));
      P.FlagsRead(p);
    }
  }

  lemma PublishKind(p: Types.Publish, d: Text, level: ProtocolLevel, others: Others)
    ensures DecodePacket(d, P.PUBLISH * 16 + P.Flags(p), level, others) == Ok(Packet.Publish(P.Canonical(p))) <==>
      P.Decode(d, level, P.PUBLISH * 16 + P.Flags(p)) == Ok(P.Canonical(p))
  {
  }

  lemma SubscribeRead(p: S.Subscribe, level: ProtocolLevel, maxOut: nat, maxIn: nat, others: Others, tail: Text)
    requires S.WellFormed(p) && S.Encode(p, level, maxOut).Ok? && S.DeclaredSize(p, level).value <= maxIn
    requires Survives(Packet.Subscribe(p), level)
    ensures ParseStream(S.Encode(p, level, maxOut).value + tail, level, maxIn, others) ==
      ParseStream(tail, level, maxIn, others).Prepend([(Packet.Subscribe(p), S.DeclaredSize(p, level).value)])
  {
    var body := S.Body(p, level);
    S.DeclaredSizeIsActual(p, level);
    S.RoundTripIff(p, level, maxOut);
    FrameRead(S.FIRST_BYTE, |body|, body, tail, level, maxIn, others);
    BodyRead(S.FIRST_BYTE, body, tail, level, others);
  }

  lemma PingRead(packet: Packet, level: ProtocolLevel, maxIn: nat, others: Others, tail: Text)
    requires packet == PingReq || packet == PingResp
    ensures ParseStream(EncodePacket(packet, level, 0, others).value + tail, level, maxIn, others) ==
      ParseStream(tail, level, maxIn, others).Prepend([(packet, 0)])
  {
    var flag: byte := if packet == PingReq then PINGREQ * 16 else PINGRESP * 16;
    var frame: Text := [flag] + VarInt(0);
    assert frame == [flag, 0];
    assert DecodePacket([], flag, level, others) == Ok(packet);
    hide DecodePacket, VarInt, NextFrom, NextBody;
    EmptyJoin(frame);
    EmptyJoin(tail);
    FrameRead(flag, 0, [], tail, level, maxIn, others);
    BodyRead(flag, [], tail, level, others);
  }

  /** A printed packet at the front of a stream is the first that is parsed, and parsing goes on
      behind it. */
  lemma PacketRead(packet: Packet, level: ProtocolLevel, maxOut: nat, maxIn: nat, others: Others, tail: Text)
    requires Encodable(packet, level, maxOut, others) && Survives(packet, level)
    requires Announced(packet, level).Ok? && Announced(packet, level).value <= maxIn
    ensures ParseStream(EncodePacket(packet, level, maxOut, others).value + tail, level, maxIn, others) ==
      ParseStream(tail, level, maxIn, others).Prepend([(Arrived(packet), Announced(packet, level).value)])
  {
    match packet
    case Publish(p) => PublishRead(p, level, maxOut, maxIn, others, tail);
    case Subscribe(p) => SubscribeRead(p, level, maxOut, maxIn, others, tail);
    case _ => PingRead(packet, level, maxIn, others, tail);
  }

  predicate AllPass(packets: seq<Packet>, level: ProtocolLevel, maxOut: nat, maxIn: nat, others: Others) {
    forall i | 0 <= i < |packets| ::
      && Encodable(packets[i], level, maxOut, others) && Survives(packets[i], level)
      && Announced(packets[i], level).Ok? && Announced(packets[i], level).value <= maxIn
  }

  function PrintAll(packets: seq<Packet>, level: ProtocolLevel, maxOut: nat, maxIn: nat, others: Others): Text
    requires AllPass(packets, level, maxOut, maxIn, others)
  {
    if packets == [] then []
    else
      EncodePacket(packets[0], level, maxOut, others).value + PrintAll(packets[1..], level, maxOut, maxIn, others)
  }

  function ArrivedAll(packets: seq<Packet>, level: ProtocolLevel): seq<(Packet, nat)>
    requires forall i | 0 <= i < |packets| :: Announced(packets[i], level).Ok?
  {
    if packets == [] then []
    else [(Arrived(packets[0]), Announced(packets[0], level).value)] + ArrivedAll(packets[1..], level)
  }

  /** A stream of printed packets, whatever comes after it, parses to those packets with the sizes
      their frames announce. */
  lemma {:induction false} StreamRoundTrip(packets: seq<Packet>, level: ProtocolLevel, maxOut: nat, maxIn: nat,
      others: Others, tail: Text)
    requires AllPass(packets, level, maxOut, maxIn, others)
    ensures ParseStream(PrintAll(packets, level, maxOut, maxIn, others) + tail, level, maxIn, others) ==
      ParseStream(tail, level, maxIn, others).Prepend(ArrivedAll(packets, level))
  {
    if packets == [] {
      assert [] + tail == tail;
      assert ParseStream(tail, level, maxIn, others).Prepend([]) == ParseStream(tail, level, maxIn, others);
    } else {
      var first := EncodePacket(packets[0], level, maxOut, others).value;
      var rest := PrintAll(packets[1..], level, maxOut, maxIn, others);
      Associative(first, rest, tail);
      PacketRead(packets[0], level, maxOut, maxIn, others, rest + tail);
      StreamRoundTrip(packets[1..], level, maxOut, maxIn, others, tail);
      PrependTwice(ParseStream(tail, level, maxIn, others),
                   [(Arrived(packets[0]), Announced(packets[0], level).value)], ArrivedAll(packets[1..], level));
    }
  }

  lemma PrependTwice(p: Parse, a: seq<(Packet, nat)>, b: seq<(Packet, nat)>)
    ensures p.Prepend(b).Prepend(a) == p.Prepend(a + b)
  {
    assert a + (b + p.packets) == a + b + p.packets;
  }

  /** A CONNECT and then packets printed at its level: they are read at that level, whatever the level
      was before. */
  lemma ConnectThenPackets(flag: byte, contents: Text, connect: Packet, packets: seq<Packet>, before: ProtocolLevel,
      maxOut: nat, maxIn: nat, others: Others)
    requires connect.Connect? && DecodePacket(contents, flag, before, others) == Ok(connect)
    requires |contents| <= MAX_VARINT && |contents| <= maxIn
    requires AllPass(packets, connect.level, maxOut, maxIn, others)
    ensures ParseStream([flag] + VarInt(|contents|) + contents + PrintAll(packets, connect.level, maxOut, maxIn, others),
                        before, maxIn, others) ==
      Parse([(connect, |contents|)] + ArrivedAll(packets, connect.level), End, connect.level)
  {
    assert forall i | 0 <= i < |packets| :: Announced(packets[i], connect.level).Ok?;
    hide *;
    var printed := PrintAll(packets, connect.level, maxOut, maxIn, others);
    ConnectFirst(flag, contents, connect, printed, before, maxIn, others);
    EmptyJoin(printed);
    StreamRoundTrip(packets, connect.level, maxOut, maxIn, others, []);
    NothingLeft(connect.level, maxIn, others, ArrivedAll(packets, connect.level), (connect, |contents|));
  }

  lemma ConnectFirst(flag: byte, contents: Text, connect: Packet, rest: Text, before: ProtocolLevel, maxIn: nat,
      others: Others)
    requires connect.Connect? && DecodePacket(contents, flag, before, others) == Ok(connect)
    requires |contents| <= MAX_VARINT && |contents| <= maxIn
    ensures ParseStream([flag] + VarInt(|contents|) + contents + rest, before, maxIn, others) ==
      ParseStream(rest, connect.level, maxIn, others).Prepend([(connect, |contents|)])
  {
    hide DecodePacket, VarInt, NextFrom;
    Associative([flag] + VarInt(|contents|), contents, rest);
    FrameExact(flag, |contents|, contents + rest, before, maxIn, others);
    CutEarly(contents, rest, |contents|);
    EmptyJoin(rest);
    EmptyJoin(contents);
  }

  lemma NothingLeft(level: ProtocolLevel, maxIn: nat, others: Others, packets: seq<(Packet, nat)>, first: (Packet, nat))
    ensures ParseStream([], level, maxIn, others).Prepend(packets).Prepend([first]) == Parse([first] + packets, End, level)
  {
    EmptyJoin(packets);
  }

  // ---- exactly which packets survive ----

  /** A frame alone in a stream: announced longer than it is, it ends the stream; otherwise what
      parses first is what the announced part of its body decodes to. */
  lemma FrameAlone(flag: byte, size: nat, body: Text, level: ProtocolLevel, maxSize: nat, others: Others)
    requires size <= MAX_VARINT && size <= maxSize
    ensures ParseStream([flag] + VarInt(size) + body, level, maxSize, others) ==
      if |body| < size then Parse([], Failed(UnexpectedEof), level)
      else ParseOn(DecodePacket(body[..size], flag, level, others), size, body[size..], level, maxSize, others)
  {
    FrameRead(flag, size, body, [], level, maxSize, others);
    assert [flag] + VarInt(size) + body + [] == [flag] + VarInt(size) + body && body + [] == body;
  }

  lemma FirstIsDecoded(r: Result<Packet, DecodeError>, size: nat, s: Text, level: ProtocolLevel, maxSize: nat,
      others: Others, packet: Packet)
    ensures ParseOn(r, size, s, level, maxSize, others).packets == [(packet, size)] ==> r == Ok(packet)
    ensures r == Ok(packet) && s == [] && !packet.Connect? ==>
      ParseOn(r, size, s, level, maxSize, others) == Parse([(packet, size)], End, level)
  {
    if r.Ok? {
      var rest := ParseStream(s, NextLevel(r.value, level), maxSize, others).packets;
      assert ([(r.value, size)] + rest)[0] == (r.value, size);
    }
  }

  /** A PUBLISH alone in a stream is all that the stream parses to, exactly when its identifier goes
      with its QoS and neither a subscription identifier nor the length of its property section lies
      on a boundary (at level 4: it has no properties). */
  lemma PublishSurvivesIff(p: Types.Publish, level: ProtocolLevel, maxOut: nat, maxIn: nat, others: Others)
    requires P.WellFormed(p) && P.Encode(p, level, maxOut).Ok? && P.DeclaredSize(p, level).value <= maxIn
    ensures ParseStream(P.Encode(p, level, maxOut).value, level, maxIn, others) ==
        Parse([(Packet.Publish(P.Canonical(p)), P.DeclaredSize(p, level).value)], End, level)
      <==> Survives(Packet.Publish(p), level)
  {
    var (flag: byte, body, size) := (P.PUBLISH * 16 + P.Flags(p), P.Body(p, level), P.DeclaredSize(p, level).value);
    PublishPrinted(p, level, maxOut);
    FrameAlone(flag, size, body, level, maxIn, others);
    if size <= |body| {
      PublishDecodesIff(p, level, maxOut, others);
      FirstIsDecoded(DecodePacket(body[..size], flag, level, others), size, body[size..], level, maxIn, others,
                     Packet.Publish(P.Canonical(p)));
    } else {
      PublishSizeIff(p, level);
    }
  }

  /** The same of SUBSCRIBE. */
  lemma SubscribeSurvivesIff(p: S.Subscribe, level: ProtocolLevel, maxOut: nat, maxIn: nat, others: Others)
    requires S.WellFormed(p) && S.Encode(p, level, maxOut).Ok? && S.DeclaredSize(p, level).value <= maxIn
    ensures ParseStream(S.Encode(p, level, maxOut).value, level, maxIn, others) ==
        Parse([(Packet.Subscribe(p), S.DeclaredSize(p, level).value)], End, level)
      <==> Survives(Packet.Subscribe(p), level)
  {
    var (body, size) := (S.Body(p, level), S.DeclaredSize(p, level).value);
    FrameAlone(S.FIRST_BYTE, size, body, level, maxIn, others);
    S.DeclaredSizeIsActual(p, level);
    if size <= |body| {
      assert body[..size] == body;
      S.RoundTripIff(p, level, maxOut);
      FirstIsDecoded(DecodePacket(body, S.FIRST_BYTE, level, others), size, body[size..], level, maxIn, others,
                     Packet.Subscribe(p));
    }
  }
}
