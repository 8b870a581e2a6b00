/** The codec of a connection (libs/codec/src/codec.rs): a decoder that reads pieces of the stream
    when it runs out of bytes and can be interrupted at every read, and an encoder. */
module Codec {
  import opened Types
  import opened Seqs
  import opened Wire
  import opened Buffers
  import opened FramerSpec
  import P = PublishSpec
  import S = SubscribeSpec
  import PublishPacket
  import SubscribePacket

  /** The peer's side of the stream: the pieces that reads will return, none of them empty. After the
      last one a read returns nothing, which means the end. */
  class Reader {
    var chunks: seq<Text>

    ghost predicate Valid()
      reads this
    {
      forall i | 0 <= i < |chunks| :: chunks[i] != []
    }

    ghost function Coming(): Text
      reads this
    {
      Concat(chunks)
    }

    constructor (chunks: seq<Text>)
      requires forall i | 0 <= i < |chunks| :: chunks[i] != []
      ensures Valid() && this.chunks == chunks
    {
      this.chunks := chunks;
    }

    method Read() returns (data: Text)
      requires Valid()
      modifies this
      ensures Valid() && old(Coming()) == data + Coming()
      ensures if old(chunks) == [] then data == [] && chunks == []
              else data != [] && |chunks| == |old(chunks)| - 1
    {
      if chunks == [] {
        return [];
      }
      data := chunks[0];
      chunks := chunks[1..];
    }
  }

  /** How a call of `decode` comes out: a packet and its size, the end or an error, or, when the
      caller stops waiting for a read to complete, nothing at all. */
  datatype Outcome = Got(packet: Packet, size: nat) | Finished(finish: Finish) | Interrupted

  class Codec {
    const reader: Reader
    var level: ProtocolLevel
    var inputMaxSize: nat
    var outputMaxSize: nat
    var readBuf: Text
    const writeBuf: BytesMut
    var sent: Text  // what the writer has been given
    var decoderState: DecoderState

    ghost predicate Valid()
      reads this, reader
    {
      reader.Valid()
    }

    /** The bytes that are still to be parsed. */
    ghost function Stream(): Text
      reads this, reader
    {
      readBuf + reader.Coming()
    }

    /** What they come to next, read on from where the decoder stands. */
    ghost function Upcoming(others: Others): Next
      reads this, reader
    {
      NextFrom(decoderState, Stream(), level, inputMaxSize, others)
    }

    constructor (reader: Reader)
      requires reader.Valid()
      ensures Valid() && this.reader == reader && fresh(writeBuf)
      ensures level == V4 && inputMaxSize == USIZE_MAX && outputMaxSize == USIZE_MAX
      ensures readBuf == [] && writeBuf.data == [] && sent == [] && decoderState == Flag
    {
      this.reader := reader;
      level, inputMaxSize, outputMaxSize := V4, USIZE_MAX, USIZE_MAX;
      readBuf, sent, decoderState := [], [], Flag;
      writeBuf := new BytesMut();
    }

    method SetInputMaxSize(size: nat)
      modifies `inputMaxSize
      ensures inputMaxSize == size
    {
      inputMaxSize := size;
    }

    method SetOutputMaxSize(size: nat)
      modifies `outputMaxSize
      ensures outputMaxSize == size
    {
      outputMaxSize := size;
    }

    /** Calls the decoder of the packet's type. */
    static method ParsePacket(data: Text, flag: byte, level: ProtocolLevel, others: Others)
      returns (r: Result<Packet, DecodeError>)
      ensures r == DecodePacket(data, flag, level, others)
    {
      var kind := flag / 16;
      if kind == P.PUBLISH {
        var p :- PublishPacket.DecodePublish(data, level, flag);
        return Ok(Packet.Publish(p));
      } else if kind == S.SUBSCRIBE {
        var p :- SubscribePacket.DecodeSubscribe(data, level, flag);
        return Ok(Packet.Subscribe(p));
      } else {
        return DecodePacket(data, flag, level, others);
      }
    }

    /** Gives the next packet of the stream and leaves the bytes after it, or says how the stream
        ends. Stopped after `patience` reads, it has lost nothing: the same is still to come. */
    method Decode(patience: nat, others: Others) returns (r: Outcome)
      requires Valid()
      modifies `level, `readBuf, `decoderState, reader
      ensures Valid() && |old(reader.chunks)| - |reader.chunks| <= patience
      ensures match r
        case Got(packet, size) =>
          && decoderState == Flag && level == (if packet.Connect? then packet.level else old(level))
          && old(Upcoming(others)) == NextPacket(packet, size, Stream())
        case Finished(finish) => level == old(level) && old(Upcoming(others)) == Over(finish)
        case Interrupted =>
          && level == old(level) && old(Upcoming(others)) == Upcoming(others)
          && |old(reader.chunks)| - |reader.chunks| == patience
    {
      hide DecodePacket, RemainingLength, NextFrom;
      ghost var next := Upcoming(others);
      var done := 0;
      while true
        invariant Valid() && level == old(level) && Upcoming(others) == next
        invariant done == |old(reader.chunks)| - |reader.chunks| <= patience
        decreases |reader.chunks|, |readBuf|
      {
        ghost var coming := reader.Coming();
        match decoderState {
        case Flag =>
          if readBuf != [] {
            FlagAhead(readBuf, coming, level, inputMaxSize, others);
            decoderState := Length(readBuf[0]);
            readBuf := readBuf[1..];
            continue;
          }
        case Length(flag) =>
          var ahead := GetRemainingLength(readBuf);
          if ahead != Ok(None) {
            LengthAhead(flag, readBuf, coming, level, inputMaxSize, others);
          }
          if ahead.Err? {
            return Finished(Failed(ahead.error));
          }
          if ahead.value.Some? {
            var (size, k) := ahead.value.value;
            if size > inputMaxSize {
              return Finished(Failed(DecodeError.PacketTooLarge));
            }
            readBuf := readBuf[k..];
            decoderState := Body(flag, size);
            continue;
          }
        case Body(flag, size) =>
          if |readBuf| >= size {
            BodyAhead(flag, size, readBuf, coming, level, inputMaxSize, others);
            var data := readBuf[..size];
            readBuf := readBuf[size..];
            decoderState := Flag;
            var packet := ParsePacket(data, flag, level, others);
            if packet.Err? {
              return Finished(Failed(packet.error));
            }
            if packet.value.Connect? {
              level := packet.value.level;
            }
            return Got(packet.value, size);
          }
        }
        if done == patience {
          return Interrupted;
        }
        var data := reader.Read();
        if data == [] {
          EmptyJoin(readBuf);
          NothingAhead(decoderState, readBuf, level, inputMaxSize, others);
          return if decoderState == Flag then Finished(End) else Finished(Failed(UnexpectedEof));
        }
        Associative(readBuf, data, reader.Coming());
        readBuf := readBuf + data;
        done := done + 1;
      }
    }

    /** What the remaining length in the buffer says about the whole stream. */
    static lemma FlagAhead(buf: Text, coming: Text, level: ProtocolLevel, maxSize: nat, others: Others)
      requires buf != []
      ensures NextFrom(Flag, buf + coming, level, maxSize, others) ==
              NextFrom(Length(buf[0]), buf[1..] + coming, level, maxSize, others)
    {
      TailOfJoin(buf, coming);
    }

    static lemma LengthAhead(flag: byte, buf: Text, coming: Text, level: ProtocolLevel, maxSize: nat, others: Others)
      requires RemainingLength(buf) != Ok(None)
      ensures RemainingLength(buf).Ok? ==> 1 <= RemainingLength(buf).value.value.1 <= |buf|
      ensures NextFrom(Length(flag), buf + coming, level, maxSize, others) ==
        if RemainingLength(buf).Err? then Over(Failed(RemainingLength(buf).error))
        else
          var (size, k) := RemainingLength(buf).value.value;
          if size > maxSize then Over(Failed(DecodeError.PacketTooLarge))
          else NextFrom(Body(flag, size), buf[k..] + coming, level, maxSize, others)
    {
      RemainingLengthStable(buf, coming);
      if RemainingLength(buf).Ok? {
        RemainingLengthWithin(buf);
        CutEarly(buf, coming, RemainingLength(buf).value.value.1);
      }
    }

    static lemma BodyAhead(flag: byte, size: nat, buf: Text, coming: Text, level: ProtocolLevel, maxSize: nat,
                           others: Others)
      requires size <= |buf|
      ensures NextFrom(Body(flag, size), buf + coming, level, maxSize, others) ==
        NextOn(DecodePacket(buf[..size], flag, level, others), size, buf[size..] + coming)
    {
      CutEarly(buf, coming, size);
    }

    /** The end of the stream, with no whole packet left. */
    static lemma NothingAhead(state: DecoderState, s: Text, level: ProtocolLevel, maxSize: nat, others: Others)
      requires match state
        case Flag => s == []
        case Length(_) => RemainingLength(s) == Ok(None)
        case Body(_, size) => |s| < size
      ensures NextFrom(state, s, level, maxSize, others) ==
        Over(if state == Flag then End else Failed(UnexpectedEof))
    {
    }

    /** Calls `decode` until the stream is over, going on where it stopped however often it is
        interrupted; whoever handles the packets may set another limit after each. The packets, the
        way the stream ends and the protocol level are those of the whole stream: they depend neither
        on the pieces it came in nor on the interruptions. */
    method DecodeAll(interruptions: seq<nat>, limit: seq<(Packet, nat)> -> nat, others: Others)
      returns (packets: seq<(Packet, nat)>, finish: Finish)
      requires Valid()
      modifies `level, `inputMaxSize, `readBuf, `decoderState, reader
      ensures Parse(packets, finish, level) ==
              ParseLimited(old(decoderState), old(Stream()), old(level), limit, [], others)
      ensures LevelBy(packets, old(level), level)
    {
      hide NextFrom, LevelBy;
      ghost var whole := ParseLimited(decoderState, Stream(), level, limit, [], others);
      packets := [];
      NoLevelYet(level);
      var i := 0;
      while true
        invariant Valid() && i <= |interruptions|
        invariant whole == ParseLimited(decoderState, Stream(), level, limit, packets, others)
        invariant LevelBy(packets, old(level), level)
        decreases |interruptions| - i, |Stream()|, if decoderState.Flag? then 0 else 1
      {
        SetInputMaxSize(limit(packets));
        var patience := if i < |interruptions| then interruptions[i] else |reader.chunks| + 1;
        var r := Decode(patience, others);
        match r
        case Interrupted =>
          i := i + 1;
        case Finished(end) =>
          finish := end;
          return;
        case Got(packet, size) =>
          LevelByMore(packets, old(level), packet, size, level);
          packets := packets + [(packet, size)];
      }
    }

    /** Prints the packet behind whatever a failed call left in the write buffer, and sends both. */
    method Encode(packet: Packet, others: Others) returns (r: Result<nat, EncodeError>)
      modifies `level, `sent, writeBuf
      ensures level == if packet.Connect? then packet.level else old(level)
      ensures match EncodePacket(packet, level, outputMaxSize, others)
        case Ok(printed) =>
          && sent == old(sent) + (old(writeBuf.data) + printed) && writeBuf.data == []
          && r == Ok(|old(writeBuf.data)| + |printed|)
        case Err(e) =>
          && sent == old(sent) && r == Err(e)
          && writeBuf.data == old(writeBuf.data) + LeavesPacket(packet, level, outputMaxSize, others)
    {
      hide EncodePacket, LeavesPacket;
      if packet.Connect? {
        level := packet.level;
      }
      var done := PrintPacket(packet, writeBuf, level, outputMaxSize, others);
      if done.Err? {
        return Err(done.error);
      }
      sent := sent + writeBuf.data;
      var size := |writeBuf.data|;
      writeBuf.data := [];
      return Ok(size);
    }

    static method PrintPacket(packet: Packet, data: BytesMut, level: ProtocolLevel, maxSize: nat, others: Others)
      returns (r: Result<(), EncodeError>)
      modifies data
      ensures match EncodePacket(packet, level, maxSize, others)
        case Ok(printed) => r == Ok(()) && data.data == old(data.data) + printed
        case Err(e) => r == Err(e) && data.data == old(data.data) + LeavesPacket(packet, level, maxSize, others)
    {
      match packet
      case Publish(p) => r := PublishPacket.EncodePublish(p, data, level, maxSize);
      case Subscribe(p) => r := SubscribePacket.EncodeSubscribe(p, data, level, maxSize);
      case PingReq =>
        data.PutSlice([PINGREQ * 16, 0]);
        return Ok(());
      case PingResp =>
        data.PutSlice([PINGRESP * 16, 0]);
        return Ok(());
      case _ =>
        var printed := others.encode(packet, level, maxSize);
        if printed.Err? {
          data.PutSlice(others.leaves(packet, level, maxSize));
          return Err(printed.error);
        }
        data.PutSlice(printed.value);
        return Ok(());
    }
  }
}
