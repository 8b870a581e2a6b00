/** The buffer packets are printed into and the one they are read from (`BytesMut` as a
    `PacketWriter`, libs/codec/src/writer.rs; `Bytes` as a `PacketReader`, libs/codec/src/reader.rs). */
module Buffers {
  import opened Types
  import opened Utf8
  import opened Wire

  class BytesMut {
    var data: Text

    constructor ()
      ensures data == []
    {
      data := [];
    }

    method PutU8(b: byte)
      modifies this
      ensures data == old(data) + [b]
    {
      data := data + [b];
    }

    method PutU16(n: u16)
      modifies this
      ensures data == old(data) + U16Bytes(n)
    {
      data := data + [n / 0x100, n % 0x100];
    }

    method PutU32(n: u32)
      modifies this
      ensures data == old(data) + U32Bytes(n)
    {
      PutU16(n / 0x1_0000);
      PutU16(n % 0x1_0000);
    }

    method PutSlice(s: Text)
      modifies this
      ensures data == old(data) + s
    {
      data := data + s;
    }

    method WriteRemainingLength(value: nat) returns (r: Result<(), EncodeError>)
      modifies this
      ensures r == if value <= MAX_VARINT then Ok(()) else Err(PayloadTooLarge)
      ensures data == if r.Ok? then old(data) + VarInt(value) else old(data)
    {
      if value > MAX_VARINT {
        return Err(PayloadTooLarge);
      }
      var n := value;
      while true
        invariant old(data) + VarInt(value) == data + VarInt(n)
        decreases n
      {
        ghost var was, left := data, n;
        var b := n % 0x80;
        n := n / 0x80;
        if n > 0 {
          b := b + 0x80;
        }
        PutU8(b);
        if n == 0 {
          assert data == was + VarInt(left);
          break;
        }
        assert was + VarInt(left) == data + VarInt(n);
      }
      return Ok(());
    }

    method WriteBinary(value: Text) returns (r: Result<(), EncodeError>)
      modifies this
      ensures r == if Short(value) then Ok(()) else Err(PayloadTooLarge)
      ensures data == if r.Ok? then old(data) + BinaryBytes(value) else old(data)
    {
      if |value| > 0xFFFF {
        return Err(PayloadTooLarge);
      }
      PutU16(|value|);
      PutSlice(value);
      return Ok(());
    }

    method WriteString(value: Text) returns (r: Result<(), EncodeError>)
      modifies this
      ensures r == if Short(value) then Ok(()) else Err(PayloadTooLarge)
      ensures data == if r.Ok? then old(data) + BinaryBytes(value) else old(data)
    {
      if |value| > 0xFFFF {
        return Err(PayloadTooLarge);
      }
      PutU16(|value|);
      PutSlice(value);
      return Ok(());
    }

    method WriteBool(value: bool)
      modifies this
      ensures data == old(data) + [if value then 1 else 0]
    {
      match value
      case true => PutU8(1);
      case false => PutU8(0);
    }
  }

  /** A read answers as the parser of the bytes before it does, and leaves what that parser leaves. */
  predicate Reads<T(==)>(parsed: Parsed<T>, r: Result<T, DecodeError>, after: Text) {
    match r
    case Ok(value) => parsed == Ok((value, after))
    case Err(error) => parsed == Err(error)
  }

  /** What a read that fails leaves: it has taken as much as it looked at. */
  function VarIntLeft(d: Text): Text {
    if |d| < 4 then [] else d[4..]
  }

  function BinaryLeft(d: Text): Text {
    if |d| < 2 then d else d[2..]
  }

  function StringLeft(d: Text): Text {
    match Wire.ReadBinary(d)
    case Ok((s, rest)) => rest
    case Err(_) => BinaryLeft(d)
  }

  function Pow2(k: nat): nat {
    if k == 0 then 1 else 2 * Pow2(k - 1)
  }

  /** `<<`. */
  function Shl(n: nat, k: nat): nat {
    n * Pow2(k)
  }

  /** What is read in all when i groups have made n and r is read next. */
  function Above(n: nat, i: nat, r: Parsed<nat>): Parsed<nat> {
    var (m, rest) :- r;
    Ok((n + Shl(m, 7 * i), rest))
  }

  /** One turn of the two loops over the groups of a variable-byte integer. */
  lemma AboveMore(n: nat, i: nat, d: Text)
    requires i <= 3 && d != []
    ensures var more := n + Shl(d[0] % 0x80, 7 * i);
      Above(n, i, ReadVarInt(d, 4 - i)) ==
        if d[0] < 0x80 then Ok((more, d[1..]))
        else if i == 3 then Err(MalformedPacket)
        else Above(more, i + 1, ReadVarInt(d[1..], 3 - i))
  {
    if d[0] >= 0x80 && i < 3 && ReadVarInt(d[1..], 3 - i).Ok? {
      var (m, rest) := ReadVarInt(d[1..], 3 - i).value;
      OneGroupMore(n, d[0] % 0x80, m, i, rest);
    }
  }

  lemma AboveAt(n: nat, i: nat, data: Text)
    requires i <= 3 && i < |data|
    ensures var more := n + Shl(data[i] % 0x80, 7 * i);
      Above(n, i, ReadVarInt(data[i..], 4 - i)) ==
        if data[i] < 0x80 then Ok((more, data[i + 1..]))
        else if i == 3 then Err(MalformedPacket)
        else Above(more, i + 1, ReadVarInt(data[i + 1..], 3 - i))
  {
    AboveMore(n, i, data[i..]);
    assert data[i..][1..] == data[i + 1..];
  }

  lemma OneGroupMore(n: nat, low: nat, m: nat, i: nat, rest: Text)
    ensures Above(n, i, Ok((low + 0x80 * m, rest))) == Above(n + Shl(low, 7 * i), i + 1, Ok((m, rest)))
  {
    var scale := Pow2(7 * i);
    SevenBitsMore(7 * i);
    Product(low, m, scale);
  }

  lemma SevenBitsMore(k: nat)
    ensures Pow2(k + 7) == 0x80 * Pow2(k)
  {
    assert Pow2(k + 7) == 2 * Pow2(k + 6) == 4 * Pow2(k + 5) == 8 * Pow2(k + 4);
    assert Pow2(k + 4) == 2 * Pow2(k + 3) == 4 * Pow2(k + 2) == 8 * Pow2(k + 1);
  }

  lemma Product(low: nat, m: nat, scale: nat)
    ensures (low + 0x80 * m) * scale == low * scale + m * (0x80 * scale)
  {
  }

  class Bytes {
    var data: Text

    constructor (data: Text)
      ensures this.data == data
    {
      this.data := data;
    }

    method ReadU8() returns (r: Result<byte, DecodeError>)
      modifies this
      ensures Reads(Wire.ReadU8(old(data)), r, data) && (r.Err? ==> data == old(data))
    {
      if |data| < 1 {
        return Err(MalformedPacket);
      }
      r := Ok(data[0]);
      data := data[1..];
    }

    method ReadU16() returns (r: Result<u16, DecodeError>)
      modifies this
      ensures Reads(Wire.ReadU16(old(data)), r, data) && (r.Err? ==> data == old(data))
    {
      if |data| < 2 {
        return Err(MalformedPacket);
      }
      var n: u16 := data[0] as int * 0x100 + data[1] as int;
      data := data[2..];
      return Ok(n);
    }

    method ReadU32() returns (r: Result<u32, DecodeError>)
      modifies this
      ensures Reads(Wire.ReadU32(old(data)), r, data) && (r.Err? ==> data == old(data))
    {
      if |data| < 4 {
        return Err(MalformedPacket);
      }
      var high: u16 := data[0] as int * 0x100 + data[1] as int;
      var low: u16 := data[2] as int * 0x100 + data[3] as int;
      data := data[4..];
      return Ok(high as int * 0x1_0000 + low as int);
    }

    method ReadBool() returns (r: Result<bool, DecodeError>)
      modifies this
      ensures Reads(Wire.ReadBool(old(data)), r, data) && (r.Err? ==> data == old(data))
    {
      var b :- ReadU8();
      return Ok(b > 0);
    }

    method ReadRemainingLength() returns (r: Result<nat, DecodeError>)
      modifies this
      ensures Reads(Wire.ReadVarInt(old(data)), r, data) && (r.Err? ==> data == VarIntLeft(old(data)))
    {
      ghost var d, i := data, 0;
      var n: nat, shift: nat := 0, 0;
      while true
        invariant 0 <= i <= 3 && i <= |d| && shift == 7 * i && data == d[i..]
        invariant ReadVarInt(d) == Above(n, i, ReadVarInt(d[i..], 4 - i))
        decreases 3 - i
      {
        if i < |d| {
          AboveAt(n, i, d);
          assert d[i..][1..] == d[i + 1..];
        }
        var b :- ReadU8();
        hide Pow2;
        n := n + Shl(b % 0x80, shift);
        if b < 0x80 {
          break;
        }
        shift := shift + 7;
        if shift > 21 {
          return Err(MalformedPacket);
        }
        i := i + 1;
      }
      return Ok(n);
    }

    method ReadBinary() returns (r: Result<Text, DecodeError>)
      modifies this
      ensures Reads(Wire.ReadBinary(old(data)), r, data) && (r.Err? ==> data == BinaryLeft(old(data)))
    {
      var n :- ReadU16();
      if |data| < n {
        return Err(MalformedPacket);
      }
      r := Ok(data[..n]);
      data := data[n..];
    }

    method ReadString() returns (r: Result<Text, DecodeError>)
      modifies this
      ensures Reads(Wire.ReadString(old(data)), r, data) && (r.Err? ==> data == StringLeft(old(data)))
    {
      var n :- ReadU16();
      if |data| < n {
        return Err(MalformedPacket);
      }
      var s := data[..n];
      data := data[n..];
      return if ValidUtf8(s) then Ok(s) else Err(MalformedPacket);
    }

    /** `split_to`: the next n bytes, cut off the front. */
    method SplitTo(n: nat) returns (front: Text)
      requires n <= |data|
      modifies this
      ensures old(data) == front + data && |front| == n
    {
      front := data[..n];
      data := data[n..];
    }
  }

  /** The framer's look ahead at the remaining length. */
  method GetRemainingLength(data: Text) returns (r: Result<Option<(nat, nat)>, DecodeError>)
    ensures r == RemainingLength(data)
  {
    var n: nat, shift: nat, bytes: nat, i: nat := 0, 0, 0, 0;
    while true
      invariant 0 <= i == bytes <= 3 && shift == 7 * i && i <= |data|
      invariant ReadVarInt(data) == Above(n, i, ReadVarInt(data[i..], 4 - i))
      decreases 3 - i
    {
      if i >= |data| {
        return Ok(None);
      }
      AboveAt(n, i, data);
      var b := data[i];
      bytes := bytes + 1;
      n := n + Shl(b % 0x80, shift);
      if b < 0x80 {
        break;
      }
      shift := shift + 7;
      if shift > 21 {
        return Err(MalformedPacket);
      }
      i := i + 1;
    }
    return Ok(Some((n, bytes)));
  }
}
