/** Minecraft frames: varint lengths, strings, ports and the handshake packet. */
module Framing {
  import opened Bytes
  import opened Uvarint

  datatype FrameError = EndOfStream | VarintTooBig | StringTooLong | FrameBounds

  // ----- 32-bit varints, at most five bytes

  const MAX_VARINT_BYTES: nat := 5
  const MAX_STRING: nat := 1020

  function WriteVarInt(value: int): bytes { PutUvarint(value % 0x1_0000_0000) }

  /** A byte of the group adds its low seven bits; a set high bit asks for another byte. */
  function TakeVarIntFrom(s: bytes, used: nat): (r: Result<(nat, bytes), FrameError>)
    requires used <= MAX_VARINT_BYTES
    ensures r.Ok? ==> |r.value.1| < |s|
    decreases MAX_VARINT_BYTES - used
  {
    if used == MAX_VARINT_BYTES then Err(VarintTooBig)
    else if s == [] then Err(EndOfStream)
    else if s[0] < 128 then Ok((s[0], s[1..]))
    else
      var (v, rest) :- TakeVarIntFrom(s[1..], used + 1);
      Ok((s[0] - 128 + 128 * v, rest))
  }

  function TakeVarInt(s: bytes): (r: Result<(nat, bytes), FrameError>)
    ensures r.Ok? ==> |r.value.1| < |s|
  {
    TakeVarIntFrom(s, 0)
  }

  lemma {:induction false} TakeWriteFrom(v: nat, used: nat, rest: bytes)
    requires used < MAX_VARINT_BYTES && v < Pow128(MAX_VARINT_BYTES - used)
    ensures TakeVarIntFrom(PutUvarint(v) + rest, used) == Ok((v, rest))
    decreases v
  {
    hide PutUvarint, Pow128;
    PutSplit(v, rest);
    PowerStep(MAX_VARINT_BYTES - used);
    if v >= 128 {
      TakeWriteFrom(v / 128, used + 1, rest);
    }
  }

  lemma PowerStep(n: nat)
    requires n >= 1
    ensures Pow128(n) == 128 * Pow128(n - 1) && Pow128(0) == 1
  {
  }

  lemma FiveGroups()
    ensures Pow128(5) == 0x8_0000_0000
  {
    assert Pow128(1) == 128 && Pow128(2) == 0x4000 && Pow128(3) == 0x20_0000 && Pow128(4) == 0x1000_0000;
  }

  /** What was written is read back modulo 2^32, in at most five bytes, and nothing more is consumed. */
  lemma VarIntRoundTrip(value: int, rest: bytes)
    ensures TakeVarInt(WriteVarInt(value) + rest) == Ok((value % 0x1_0000_0000, rest))
    ensures 1 <= |WriteVarInt(value)| <= MAX_VARINT_BYTES
  {
    FiveGroups();
    TakeWriteFrom(value % 0x1_0000_0000, 0, rest);
    PutLength(value % 0x1_0000_0000, 5);
  }

  /** The value itself comes back exactly for the unsigned 32-bit values. */
  lemma VarIntExact(value: int, rest: bytes)
    ensures TakeVarInt(WriteVarInt(value) + rest) == Ok((value, rest)) <==> 0 <= value < 0x1_0000_0000
  {
    VarIntRoundTrip(value, rest);
  }

  // ----- strings and ports

  function WriteString(value: bytes): bytes { WriteVarInt(|value|) + value }

  function TakeBytes(n: nat, s: bytes): Result<(bytes, bytes), FrameError> {
    if n > |s| then Err(EndOfStream) else Ok((s[..n], s[n..]))
  }

  function TakeString(s: bytes): Result<(bytes, bytes), FrameError> {
    var (length, rest) :- TakeVarInt(s);
    if length > MAX_STRING then Err(StringTooLong) else TakeBytes(length, rest)
  }

  function TakeUShort(s: bytes): Result<(uint16, bytes), FrameError> {
    var (b, rest) :- TakeBytes(2, s);
    Ok(((b[0] as int) * 0x100 + b[1], rest))
  }

  lemma StringRoundTrip(value: bytes, rest: bytes)
    requires |value| < 0x1_0000_0000
    ensures TakeString(WriteString(value) + rest)
            == if |value| <= MAX_STRING then Ok((value, rest)) else Err(StringTooLong)
  {
    VarIntRoundTrip(|value|, value + rest);
    assert WriteString(value) + rest == WriteVarInt(|value|) + (value + rest);
    assert (value + rest)[..|value|] == value && (value + rest)[|value|..] == rest;
  }

  lemma UShortRoundTrip(value: uint16, rest: bytes)
    ensures TakeUShort(BigEndian16(value) + rest) == Ok((value, rest))
  {
    var s := BigEndian16(value) + rest;
    assert s[..2] == BigEndian16(value) && s[2..] == rest;
  }

  // ----- frames

  datatype Frame = Frame(packetID: nat, data: bytes)

  function FrameBody(f: Frame): bytes { WriteVarInt(f.packetID) + f.data }

  function WriteFrame(f: Frame): bytes { WriteVarInt(|FrameBody(f)|) + FrameBody(f) }

  function TakeFrame(s: bytes, maxFrameSize: int): (r: Result<(Frame, bytes), FrameError>) {
    var (length, rest) :- TakeVarInt(s);
    if length == 0 || length > maxFrameSize then Err(FrameBounds) else
      var (body, rest') :- TakeBytes(length, rest);
      var (packetID, data) :- TakeVarInt(body);
      Ok((Frame(packetID, data), rest'))
  }

  predicate FrameFits(f: Frame, maxFrameSize: int) {
    f.packetID < 0x1_0000_0000 && |FrameBody(f)| <= maxFrameSize
  }

  lemma FrameRoundTrip(f: Frame, maxFrameSize: int, rest: bytes)
    requires f.packetID < 0x1_0000_0000 && |FrameBody(f)| < 0x1_0000_0000
    ensures TakeFrame(WriteFrame(f) + rest, maxFrameSize)
            == if FrameFits(f, maxFrameSize) then Ok((f, rest)) else Err(FrameBounds)
  {
    hide TakeVarInt, WriteVarInt;
    var body := FrameBody(f);
    VarIntRoundTrip(f.packetID, f.data);
    VarIntRoundTrip(|body|, body + rest);
    assert WriteFrame(f) + rest == WriteVarInt(|body|) + (body + rest);
    assert (body + rest)[..|body|] == body && (body + rest)[|body|..] == rest;
  }

  function WriteFrames(fs: seq<Frame>): bytes {
    if fs == [] then [] else WriteFrame(fs[0]) + WriteFrames(fs[1..])
  }

  function TakeFrames(n: nat, s: bytes, maxFrameSize: int): Result<(seq<Frame>, bytes), FrameError> {
    if n == 0 then Ok(([], s)) else
      var (f, rest) :- TakeFrame(s, maxFrameSize);
      var (fs, rest') :- TakeFrames(n - 1, rest, maxFrameSize);
      Ok(([f] + fs, rest'))
  }

  /** Framing delimits itself: any run of frames within the limit reads back as the same run. */
  lemma {:induction false} FramesRoundTrip(fs: seq<Frame>, maxFrameSize: int, rest: bytes)
    requires maxFrameSize < 0x1_0000_0000 && forall f <- fs :: FrameFits(f, maxFrameSize)
    ensures TakeFrames(|fs|, WriteFrames(fs) + rest, maxFrameSize) == Ok((fs, rest))
    decreases |fs|
  {
    hide WriteFrame, TakeFrame;
    if fs == [] {
      assert WriteFrames(fs) + rest == rest;
    } else {
      var later := WriteFrames(fs[1..]) + rest;
      assert WriteFrames(fs) + rest == WriteFrame(fs[0]) + later;
      assert fs[0] in fs;
      FrameRoundTrip(fs[0], maxFrameSize, later);
      FramesRoundTrip(fs[1..], maxFrameSize, rest);
      assert [fs[0]] + fs[1..] == fs;
    }
  }

  // ----- the handshake packet

  datatype Handshake = Handshake(protocolVersion: nat, serverAddress: bytes, serverPort: uint16, nextState: nat)

  function HandshakePayload(h: Handshake): bytes {
    WriteVarInt(h.protocolVersion)
    + (WriteString(h.serverAddress) + (BigEndian16(h.serverPort) + WriteVarInt(h.nextState)))
  }

  function EncodeHandshake(h: Handshake): bytes { WriteFrame(Frame(0, HandshakePayload(h))) }

  /** An empty packet with id 0. */
  const StatusRequest: Frame := Frame(0, [])

  function EncodeStatusRequest(): bytes { WriteFrame(StatusRequest) }

  function ParseHandshake(payload: bytes): Result<Handshake, FrameError> {
    var (protocolVersion, s1) :- TakeVarInt(payload);
    var (serverAddress, s2) :- TakeString(s1);
    var (serverPort, s3) :- TakeUShort(s2);
    var (nextState, _) :- TakeVarInt(s3);
    Ok(Handshake(protocolVersion, serverAddress, serverPort, nextState))
  }

  /** A handshake with 32-bit fields survives exactly when its address is short enough for ReadString. */
  lemma HandshakeRoundTrip(h: Handshake)
    requires h.protocolVersion < 0x1_0000_0000 && h.nextState < 0x1_0000_0000
    requires |h.serverAddress| < 0x1_0000_0000
    ensures ParseHandshake(HandshakePayload(h))
            == if |h.serverAddress| <= MAX_STRING then Ok(h) else Err(StringTooLong)
  {
    hide TakeVarInt, WriteVarInt, TakeString, WriteString, TakeUShort, BigEndian16;
    var t3 := WriteVarInt(h.nextState);
    var t2 := BigEndian16(h.serverPort) + t3;
    VarIntRoundTrip(h.protocolVersion, WriteString(h.serverAddress) + t2);
    StringRoundTrip(h.serverAddress, t2);
    UShortRoundTrip(h.serverPort, t3);
    VarIntRoundTrip(h.nextState, []);
    assert t3 + [] == t3;
  }

  // ----- the readers of the source

  /** A stream of bytes, consumed from the front. */
  class Reader {
    var unread: bytes

    constructor (data: bytes)
      ensures unread == data
    {
      unread := data;
    }

    /** io.ReadFull: all of the bytes or an error, in which case the stream is used up. */
    method ReadFull(n: nat) returns (r: Result<bytes, FrameError>)
      modifies this
      ensures match TakeBytes(n, old(unread))
              case Ok((b, rest)) => r == Ok(b) && unread == rest
              case Err(e) => r == Err(e) && unread == []
    {
      if n > |unread| {
        unread := [];
        return Err(EndOfStream);
      }
      r := Ok(unread[..n]);
      unread := unread[n..];
    }

    method ReadVarInt() returns (r: Result<nat, FrameError>)
      modifies this
      ensures match TakeVarInt(old(unread))
              case Ok((v, rest)) => r == Ok(v) && unread == rest
              case Err(e) => r == Err(e)
    {
      var value: nat, weight: nat, bytesRead: nat := 0, 1, 0;
      while true
        invariant bytesRead <= MAX_VARINT_BYTES
        invariant TakeVarInt(old(unread)) == Scaled(value, weight, TakeVarIntFrom(unread, bytesRead))
        decreases MAX_VARINT_BYTES - bytesRead
      {
        if bytesRead >= MAX_VARINT_BYTES {
          return Err(VarintTooBig);
        }
        ghost var s, read := unread, bytesRead;
        var one :- ReadFull(1);
        bytesRead := bytesRead + 1;
        var current := one[0];
        ScaledStep(value, weight, s, read);
        value := value + weight * (current % 128);
        weight := 128 * weight;
        if current < 128 {
          break;
        }
      }
      r := Ok(value);
    }

    method ReadString() returns (r: Result<bytes, FrameError>)
      modifies this
      ensures match TakeString(old(unread))
              case Ok((v, rest)) => r == Ok(v) && unread == rest
              case Err(e) => r == Err(e)
    {
      var length :- ReadVarInt();
      if length > MAX_STRING {
        return Err(StringTooLong);
      }
      r := ReadFull(length);
    }

    method ReadUShort() returns (r: Result<uint16, FrameError>)
      modifies this
      ensures match TakeUShort(old(unread))
              case Ok((v, rest)) => r == Ok(v) && unread == rest
              case Err(e) => r == Err(e)
    {
      var b :- ReadFull(2);
      r := Ok((b[0] as int) * 0x100 + b[1]);
    }

    method ReadFrameLimit(maxFrameSize: int) returns (r: Result<Frame, FrameError>)
      modifies this
      ensures match TakeFrame(old(unread), maxFrameSize)
              case Ok((f, rest)) => r == Ok(f) && unread == rest
              case Err(e) => r == Err(e)
    {
      hide TakeVarInt;
      var length :- ReadVarInt();
      if length <= 0 || length > maxFrameSize {
        return Err(FrameBounds);
      }
      var body :- ReadFull(length);
      var bodyReader := new Reader(body);
      var packetID :- bodyReader.ReadVarInt();
      r := Ok(Frame(packetID, bodyReader.unread));
    }
  }

  /** A value read so far, continued by what the rest of the varint says. */
  function Scaled(value: nat, weight: nat, r: Result<(nat, bytes), FrameError>): Result<(nat, bytes), FrameError> {
    match r
    case Ok((v, rest)) => Ok((value + weight * v, rest))
    case Err(e) => Err(e)
  }

  lemma ScaledStep(value: nat, weight: nat, s: bytes, used: nat)
    requires used < MAX_VARINT_BYTES && s != []
    ensures Scaled(value, weight, TakeVarIntFrom(s, used))
            == if s[0] < 128 then Ok((value + weight * (s[0] % 128), s[1..]))
               else Scaled(value + weight * (s[0] % 128), 128 * weight, TakeVarIntFrom(s[1..], used + 1))
  {
    var later := TakeVarIntFrom(s[1..], used + 1);
    if s[0] >= 128 && later.Ok? {
      var low, v: int := s[0] - 128, later.value.0;
      assert weight * (low + 128 * v) == weight * low + 128 * weight * v;
    }
  }

  method ParseHandshakePayload(payload: bytes) returns (r: Result<Handshake, FrameError>)
    ensures r == ParseHandshake(payload)
  {
    hide TakeVarInt, TakeString, TakeUShort;
    var reader := new Reader(payload);
    var protocolVersion :- reader.ReadVarInt();
    var serverAddress :- reader.ReadString();
    var serverPort :- reader.ReadUShort();
    var nextState :- reader.ReadVarInt();
    r := Ok(Handshake(protocolVersion, serverAddress, serverPort, nextState));
  }
}
