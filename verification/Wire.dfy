/** The primitives of the wire (libs/codec/src/reader.rs, writer.rs and codec.rs:117-139): the bytes
    a value is printed as, what is read back from the front of some bytes, and how the two relate. */
module Wire {
  import opened Types
  import opened Utf8

  datatype EncodeError = PayloadTooLarge | PacketTooLarge | RequirePacketId

  datatype DecodeError =
    | MalformedPacket
    | UnknownPacketType(kind: byte)
    | PacketTooLarge
    | ReservedPacketType
    | InvalidQOS(qos: byte)
    | InvalidRetainHandling(handling: byte)
    | InvalidPublishProperty(property: byte)
    | InvalidSubscribeProperty(property: byte)
    | InvalidPacketId
    | InvalidTopicAlias
    | UnexpectedEof
    | Unmodelled(reason: Text)

  /** A value and the bytes after it. */
  type Parsed<+T> = Result<(T, Text), DecodeError>

  const MAX_VARINT: nat := 268_435_455

  // ---- variable-byte integers ----

  function VarInt(n: nat): (s: Text)
    ensures s != []
  {
    if n < 0x80 then [n] else [n % 0x80 + 0x80] + VarInt(n / 0x80)
  }

  /** What n groups of seven bits can hold. */
  function Bound(groups: nat): nat {
    if groups == 0 then 1 else 0x80 * Bound(groups - 1)
  }

  /** Reads at most so many bytes; the wire allows four. */
  function ReadVarInt(d: Text, groups: nat := 4): (r: Parsed<nat>)
    requires groups > 0
    ensures r.Ok? ==> |r.value.1| < |d|
    ensures r.Err? ==> r.error == MalformedPacket
  {
    if d == [] then Err(MalformedPacket)
    else if d[0] < 0x80 then Ok((d[0], d[1..]))
    else if groups == 1 then Err(MalformedPacket)
    else
      var (n, rest) :- ReadVarInt(d[1..], groups - 1);
      Ok((d[0] % 0x80 + 0x80 * n, rest))
  }

  lemma {:induction false} VarIntRead(n: nat, rest: Text, groups: nat)
    requires groups > 0 && n < Bound(groups)
    ensures ReadVarInt(VarInt(n) + rest, groups) == Ok((n, rest))
    ensures |VarInt(n)| <= groups
  {
    var s := VarInt(n) + rest;
    if n < 0x80 {
      assert s[1..] == rest;
    } else {
      VarIntRead(n / 0x80, rest, groups - 1);
      assert s[1..] == VarInt(n / 0x80) + rest;
    }
  }

  /** Printing and reading back: the whole range of the wire, whatever follows. */
  lemma VarIntRoundTrip(n: nat, rest: Text)
    ensures n <= MAX_VARINT <==> ReadVarInt(VarInt(n) + rest) == Ok((n, rest))
    ensures n <= MAX_VARINT ==> |VarInt(n)| <= 4
  {
    BoundOfFour();
    if n <= MAX_VARINT {
      VarIntRead(n, rest, 4);
    } else if ReadVarInt(VarInt(n) + rest) == Ok((n, rest)) {
      VarIntForm(VarInt(n) + rest, 4);
    }
  }

  lemma BoundOfFour()
    ensures Bound(1) == 0x80 && Bound(2) == 0x4000 && Bound(3) == 0x20_0000 && Bound(4) == MAX_VARINT + 1
  {
    assert Bound(1) == 0x80 * Bound(0);
    assert Bound(2) == 0x80 * Bound(1);
    assert Bound(3) == 0x80 * Bound(2);
    assert Bound(4) == 0x80 * Bound(3);
  }

  /** Whatever is read lies in range, came from one to four bytes off the front, and from no fewer
      than it prints as; the printed form is the only shortest one. */
  lemma {:induction false} VarIntForm(d: Text, groups: nat)
    requires groups > 0 && ReadVarInt(d, groups).Ok?
    ensures var (n, rest) := ReadVarInt(d, groups).value;
      var k := |d| - |rest|;
      && n < Bound(groups)
      && 1 <= k <= groups && d[k..] == rest
      && |VarInt(n)| <= k
      && (|VarInt(n)| == k <==> d[..k] == VarInt(n))
  {
    var (n, rest) := ReadVarInt(d, groups).value;
    if d[0] < 0x80 {
      assert d[..1] == VarInt(n);
      assert Bound(groups) >= 0x80 by { BoundPositive(groups - 1); }
    } else {
      VarIntForm(d[1..], groups - 1);
      var (m, rest') := ReadVarInt(d[1..], groups - 1).value;
      var k := |d| - |rest|;
      assert d[1..][..k - 1] == d[1..k];
      assert d[..k] == [d[0]] + d[1..k];
      assert n == d[0] % 0x80 + 0x80 * m;
      if n >= 0x80 {
        assert n / 0x80 == m;
      }
    }
  }

  lemma {:induction false} BoundPositive(groups: nat)
    ensures Bound(groups) >= 1
  {
    if groups > 0 {
      BoundPositive(groups - 1);
    }
  }

  /** `bytes_remaining_length`: how long the encoder declares a variable-byte integer to be. */
  function DeclaredLength(n: nat): Result<nat, EncodeError> {
    if n < 128 then Ok(1)
    else if n < 16383 then Ok(2)
    else if n < 2097151 then Ok(3)
    else if n < 268435455 then Ok(4)
    else Err(PayloadTooLarge)
  }

  /** The two integers that are declared one byte longer than they print. */
  predicate Boundary(n: nat) {
    n == 16383 || n == 2097151
  }

  lemma LengthOfVarInt(n: nat)
    requires n <= MAX_VARINT
    ensures |VarInt(n)| == if n < 0x80 then 1 else if n < 0x4000 then 2 else if n < 0x20_0000 then 3 else 4
  {
    if n >= 0x80 {
      assert |VarInt(n)| == 1 + |VarInt(n / 0x80)|;
      if n >= 0x4000 {
        assert |VarInt(n / 0x80)| == 1 + |VarInt(n / 0x80 / 0x80)|;
        if n >= 0x20_0000 {
          assert |VarInt(n / 0x80 / 0x80)| == 1 + |VarInt(n / 0x80 / 0x80 / 0x80)|;
        }
      }
    }
  }

  /** The declared length is the printed one exactly off the two boundaries and below the largest
      integer, which is refused although it can be printed. */
  lemma DeclaredLengthIff(n: nat)
    ensures DeclaredLength(n) == Ok(|VarInt(n)|) <==> n < MAX_VARINT && !Boundary(n)
    ensures DeclaredLength(n).Ok? <==> n < MAX_VARINT
    ensures n < MAX_VARINT ==> DeclaredLength(n) == Ok(|VarInt(n)| + if Boundary(n) then 1 else 0)
  {
    if n <= MAX_VARINT {
      LengthOfVarInt(n);
    }
  }

  /** `get_remaining_length` looks without consuming: an integer and the bytes it takes, nothing
      while more bytes may complete it, an error once none can. */
  function RemainingLength(d: Text): (r: Result<Option<(nat, nat)>, DecodeError>) {
    match ReadVarInt(d)
    case Ok((n, rest)) => Ok(Some((n, |d| - |rest|)))
    case Err(_) => if |d| < 4 then Ok(None) else Err(MalformedPacket)
  }

  lemma {:induction false} ReadVarIntMore(d: Text, e: Text, groups: nat)
    requires groups > 0
    ensures ReadVarInt(d, groups).Ok? ==>
      ReadVarInt(d + e, groups) == Ok((ReadVarInt(d, groups).value.0, ReadVarInt(d, groups).value.1 + e))
    ensures ReadVarInt(d, groups).Err? && |d| >= groups ==> ReadVarInt(d + e, groups).Err?
  {
    if d != [] {
      assert (d + e)[1..] == d[1..] + e;
      if d[0] >= 0x80 && groups > 1 {
        ReadVarIntMore(d[1..], e, groups - 1);
      }
    }
  }

  /** Once the look ahead has an answer, later bytes do not change it. */
  lemma RemainingLengthStable(d: Text, e: Text)
    requires RemainingLength(d) != Ok(None)
    ensures RemainingLength(d + e) == RemainingLength(d)
  {
    ReadVarIntMore(d, e, 4);
  }

  lemma RemainingLengthWithin(d: Text)
    requires RemainingLength(d).Ok? && RemainingLength(d).value.Some?
    ensures var (n, k) := RemainingLength(d).value.value;
      n <= MAX_VARINT && 1 <= k <= 4 && k <= |d| && ReadVarInt(d) == Ok((n, d[k..]))
  {
    VarIntForm(d, 4);
    BoundOfFour();
  }

  // ---- fixed-width integers, strings and binary data ----

  function U16Bytes(n: u16): Text {
    [n / 0x100, n % 0x100]
  }

  function U32Bytes(n: u32): Text {
    U16Bytes(n / 0x1_0000) + U16Bytes(n % 0x1_0000)
  }

  function ReadU8(d: Text): (r: Parsed<byte>)
    ensures r.Ok? ==> |r.value.1| < |d|
  {
    if |d| < 1 then Err(MalformedPacket) else Ok((d[0], d[1..]))
  }

  function ReadU16(d: Text): (r: Parsed<u16>)
    ensures r.Ok? ==> |r.value.1| < |d|
  {
    if |d| < 2 then Err(MalformedPacket)
    else
      var n: u16 := d[0] as int * 0x100 + d[1] as int;
      Ok((n, d[2..]))
  }

  function ReadU32(d: Text): (r: Parsed<u32>)
    ensures r.Ok? ==> |r.value.1| < |d|
  {
    if |d| < 4 then Err(MalformedPacket)
    else
      var n: u32 := d[0] as int * 0x100_0000 + d[1] as int * 0x1_0000 + d[2] as int * 0x100 + d[3] as int;
      Ok((n, d[4..]))
  }

  function ReadBool(d: Text): (r: Parsed<bool>)
    ensures r.Ok? ==> |r.value.1| < |d|
  {
    var (b, rest) :- ReadU8(d);
    Ok((b > 0, rest))
  }

  function ReadBinary(d: Text): (r: Parsed<Text>)
    ensures r.Ok? ==> |r.value.1| < |d|
  {
    var (n, rest) :- ReadU16(d);
    if |rest| < n then Err(MalformedPacket) else Ok((rest[..n], rest[n..]))
  }

  function ReadString(d: Text): (r: Parsed<Text>)
    ensures r.Ok? ==> |r.value.1| < |d|
  {
    var (s, rest) :- ReadBinary(d);
    if ValidUtf8(s) then Ok((s, rest)) else Err(MalformedPacket)
  }

  /** A length fits in sixteen bits. */
  predicate Short(s: Text) {
    |s| <= 0xFFFF
  }

  function BinaryBytes(s: Text): Text
    requires Short(s)
  {
    U16Bytes(|s|) + s
  }

  lemma U16RoundTrip(n: u16, rest: Text)
    ensures ReadU16(U16Bytes(n) + rest) == Ok((n, rest))
  {
    assert (U16Bytes(n) + rest)[2..] == rest;
  }

  lemma U32RoundTrip(n: u32, rest: Text)
    ensures ReadU32(U32Bytes(n) + rest) == Ok((n, rest))
  {
    assert (U32Bytes(n) + rest)[4..] == rest;
  }

  lemma BinaryRoundTrip(s: Text, rest: Text)
    requires Short(s)
    ensures ReadBinary(BinaryBytes(s) + rest) == Ok((s, rest))
    ensures ReadString(BinaryBytes(s) + rest) == Ok((s, rest)) <==> ValidUtf8(s)
  {
    assert BinaryBytes(s) + rest == U16Bytes(|s|) + (s + rest);
    U16RoundTrip(|s|, s + rest);
    assert (s + rest)[..|s|] == s && (s + rest)[|s|..] == rest;
  }
}
