/** Frames on the serial line: two magic bytes, the protocol version, a COBS body and a
    zero. The version is read before the body, so another schema is never decoded. */
module Wire {
  import opened Common
  import opened Cobs
  import opened Postcard
  import opened Protocol

  const MAGIC: seq<Byte> := [0xa5, 0x5a]
  const PROTOCOL_VERSION: Byte := 10
  const MAX_DEVICE_FRAME_LEN := 128
  const HEADER: seq<Byte> := MAGIC + [PROTOCOL_VERSION]

  function Frame(payload: seq<Byte>): seq<Byte> {
    HEADER + Stuff(payload) + [0]
  }

  /** What a received frame carries; `frame` still has its delimiter. */
  function DecodePayload(frame: seq<Byte>): Result<seq<Byte>>
  {
    if MAGIC <= frame then
      if |frame| == 2 then Err(EmptyFrame)
      else if frame[2] != PROTOCOL_VERSION then Err(UnsupportedVersion(frame[2]))
      else
        match Unstuff(UpToZero(frame[3..]))
        case None => Err(Deserialize)
        case Some(payload) => Ok(payload)
    else
      // Protocols through v5 carried the version as the first byte of the COBS body.
      match Unstuff(UpToZero(frame))
      case None => Err(Deserialize)
      case Some(decoded) => if decoded == [] then Err(Deserialize) else Err(UnsupportedVersion(decoded[0]))
  }

  function PutMessage(message: DeviceMessage): seq<Byte> {
    match message
    case ShutdownRequested => [0]
    case Hello(version, session) => [1] + PutString(version) + PutOption(session, PutU64)
  }

  /** Reads a message; bytes behind it are ignored. */
  function TakeMessage(s: seq<Byte>): Option<DeviceMessage>
  {
    match TakeVarint(s, U32_BYTES, U32_TOP)
    case None => None
    case Some((variant, rest)) =>
      if variant == 0 then Some(ShutdownRequested)
      else if variant == 1 then TakeHello(rest)
      else None
  }

  function TakeHello(s: seq<Byte>): Option<DeviceMessage>
  {
    match TakeString(s)
    case None => None
    case Some((version, rest)) =>
      match TakeOption(rest, TakeU64)
      case None => None
      case Some((session, _)) => Some(Hello(version, session))
  }

  function EncodeDevice(message: DeviceMessage): seq<Byte> {
    Frame(PutMessage(message))
  }

  function DecodeDevice(frame: seq<Byte>): Result<DeviceMessage>
  {
    match DecodePayload(frame)
    case Err(e) => Err(e)
    case Ok(payload) =>
      match TakeMessage(payload)
      case None => Err(Deserialize)
      case Some(message) => Ok(message)
  }

  /** Writes the frame of a serialized message; refused exactly when it does not fit. */
  method Encode(payload: seq<Byte>, output: array<Byte>) returns (r: Result<nat>)
    modifies output
    ensures r == if |Frame(payload)| <= output.Length then Ok(|Frame(payload)|) else Err(Serialize)
    ensures r.Ok? ==> output[..r.value] == Frame(payload)
  {
    if output.Length < 3 {
      return Err(Serialize);
    }
    output[0], output[1], output[2] := MAGIC[0], MAGIC[1], PROTOCOL_VERSION;
    assert output[..3] == HEADER;
    var end := StuffInto(payload, output, 3);
    match end
    case None => return Err(Serialize);
    case Some(n) =>
      assert output[..n] == output[..3] + output[3..n];
      return Ok(n);
  }

  /** Decodes the frame in `buffer[..size]` over itself, as the receivers do. */
  method Decode(buffer: array<Byte>, size: nat) returns (r: Result<DeviceMessage>)
    requires size <= buffer.Length
    modifies buffer
    ensures r == DecodeDevice(old(buffer[..size]))
  {
    ghost var frame := buffer[..size];
    if size >= 2 && buffer[0] == MAGIC[0] && buffer[1] == MAGIC[1] {
      assert MAGIC <= frame;
      if size == 2 {
        return Err(EmptyFrame);
      }
      if buffer[2] != PROTOCOL_VERSION {
        return Err(UnsupportedVersion(buffer[2]));
      }
      assert frame[3..] == buffer[3..size];
      var decoded := UnstuffInPlace(buffer, 3, size);
      match decoded
      case None => return Err(Deserialize);
      case Some(n) =>
        match TakeMessage(buffer[3..3 + n])
        case None => return Err(Deserialize);
        case Some(message) => return Ok(message);
    }
    assert !(MAGIC <= frame);
    assert frame == buffer[0..size];
    var decoded := UnstuffInPlace(buffer, 0, size);
    if decoded == None || decoded == Some(0) {
      return Err(Deserialize);
    }
    assert buffer[0] == buffer[0..0 + decoded.value][0];
    return Err(UnsupportedVersion(buffer[0]));
  }

  /** A frame holds no delimiter before its last byte, so it stays one frame in a stream. */
  lemma FrameIsDelimited(payload: seq<Byte>)
    ensures var f := Frame(payload);
      && |f| == |Stuff(payload)| + 4 && |payload| + 5 <= |f| <= |payload| + 5 + |payload| / MAX_RUN
      && f[|f| - 1] == 0 && 0 !in f[..|f| - 1]
  {
    UnstuffOfStuff(payload);
    assert Frame(payload)[..|Frame(payload)| - 1] == HEADER + Stuff(payload);
  }

  lemma HelloRoundTrip(version: Utf8, session: Option<Nonce>, rest: seq<Byte>)
    ensures TakeHello(PutString(version) + (PutOption(session, PutU64) + rest)) == Some(Hello(version, session))
  {
    if session.Some? {
      U64RoundTrip(session.value, rest);
    }
    OptionRoundTrip(session, PutU64, TakeU64, rest);
    StringRoundTrip(version, PutOption(session, PutU64) + rest);
  }

  lemma TakeMessageByTag(s: seq<Byte>)
    requires s != [] && s[0] < 128
    ensures TakeMessage(s) == if s[0] == 0 then Some(ShutdownRequested)
                              else if s[0] == 1 then TakeHello(s[1..]) else None
  {
    assert TakeVarint(s, U32_BYTES, U32_TOP) == Some((s[0], s[1..]));
  }

  lemma HelloLayout(version: seq<Byte>, session: seq<Byte>, rest: seq<Byte>)
    ensures var s := [1] + version + session + rest; s[0] == 1 && s[1..] == version + (session + rest)
  {
  }

  lemma MessageRoundTrip(message: DeviceMessage, rest: seq<Byte>)
    ensures TakeMessage(PutMessage(message) + rest) == Some(message)
  {
    var s := PutMessage(message) + rest;
    if message.Hello? {
      var version, session := message.firmwareVersion, message.acknowledgedSession;
      HelloRoundTrip(version, session, rest);
      HelloLayout(PutString(version), PutOption(session, PutU64), rest);
    }
    TakeMessageByTag(s);
  }

  lemma PayloadRoundTrip(payload: seq<Byte>)
    ensures DecodePayload(Frame(payload)) == Ok(payload)
  {
    UnstuffOfStuff(payload);
    var f := Frame(payload);
    assert f[3..] == Stuff(payload) + [0] + [];
    UpToZeroOfTerminated(Stuff(payload), []);
    assert f[..2] == MAGIC;
  }

  /** decode(encode(m)) == m, for every device message. */
  lemma DeviceRoundTrip(message: DeviceMessage)
    ensures DecodeDevice(EncodeDevice(message)) == Ok(message)
  {
    PayloadRoundTrip(PutMessage(message));
    MessageRoundTrip(message, []);
    assert PutMessage(message) + [] == PutMessage(message);
  }

  /** Only a frame with the magic prefix and this protocol version is ever accepted. */
  lemma OnlyThisVersionIsAccepted(frame: seq<Byte>)
    ensures DecodeDevice(frame).Ok? ==> HEADER <= frame
    ensures MAGIC <= frame && |frame| > 2 && frame[2] != PROTOCOL_VERSION
        ==> DecodeDevice(frame) == Err(UnsupportedVersion(frame[2]))
  {
  }

  lemma {:induction false} FirstByteOfRun(rest: seq<Byte>, run: seq<Byte>)
    requires 1 <= |run| < MAX_RUN
    ensures StuffFrom(rest, run)[1] == run[0]
    decreases |rest|
  {
    if rest != [] && rest[0] != 0 && |run| + 1 < MAX_RUN {
      FirstByteOfRun(rest[1..], run + [rest[0]]);
    }
  }

  /** A frame of an old protocol is reported with the version it was sent with, whatever
      follows the version byte, and is never taken for a frame of the current one. */
  lemma LegacyVersionIsReported(version: Byte, rest: seq<Byte>)
    requires version != MAGIC[1]
    ensures DecodePayload(Stuff([version] + rest) + [0]) == Err(UnsupportedVersion(version))
  {
    var body := [version] + rest;
    var frame := Stuff(body) + [0];
    UnstuffOfStuff(body);
    UpToZeroOfTerminated(Stuff(body), []);
    assert Stuff(body) + [0] + [] == frame;
    assert body[1..] == rest;
    if version == 0 {
      assert frame[0] == 1;
    } else {
      FirstByteOfRun(rest, [version]);
      assert frame[1] == version;
    }
  }

  lemma LargestNonceTakesTenBytes()
    ensures |PutU64(0xFFFF_FFFF_FFFF_FFFF)| == 10
  {
    assert |PutVarint(0x1)| == 1;
    assert |PutVarint(0xFF)| == 2;
    assert |PutVarint(0x7FFF)| == 3;
    assert |PutVarint(0x3F_FFFF)| == 4;
    assert |PutVarint(0x1FFF_FFFF)| == 5;
    assert |PutVarint(0xF_FFFF_FFFF)| == 6;
    assert |PutVarint(0x7FF_FFFF_FFFF)| == 7;
    assert |PutVarint(0x3_FFFF_FFFF_FFFF)| == 8;
    assert |PutVarint(0x1FF_FFFF_FFFF_FFFF)| == 9;
  }

  /** The device frame budget admits every Hello exactly for versions of at most 110 bytes. */
  lemma HelloFitsExactly(version: Utf8)
    ensures |version| <= 110
       <==> forall session :: |EncodeDevice(Hello(version, session))| <= MAX_DEVICE_FRAME_LEN
  {
    if |version| <= 110 {
      forall session
        ensures |EncodeDevice(Hello(version, session))| <= MAX_DEVICE_FRAME_LEN
      {
        if session.Some? {
          U64RoundTrip(session.value, []);
        }
        UnstuffOfStuff(PutMessage(Hello(version, session)));
      }
    } else {
      LargestNonceTakesTenBytes();
      var largest := Hello(version, Some(0xFFFF_FFFF_FFFF_FFFF));
      UnstuffOfStuff(PutMessage(largest));
      assert |EncodeDevice(largest)| > MAX_DEVICE_FRAME_LEN;
    }
  }

  /** A short body without zeros, and one with a zero at its end, byte for byte. */
  lemma {:induction false} StuffShort(rest: seq<Byte>, run: seq<Byte>)
    requires 0 !in rest && |run| + |rest| < MAX_RUN
    ensures StuffFrom(rest, run) == Block(run + rest)
    ensures StuffFrom(rest + [0], run) == Block(run + rest) + [1]
    decreases |rest|
  {
    if rest == [] {
      assert run + rest == run && (rest + [0])[1..] == [];
      assert StuffFrom([], []) == [1];
    } else {
      StuffShort(rest[1..], run + [rest[0]]);
      assert (rest + [0])[1..] == rest[1..] + [0];
      assert run + [rest[0]] + rest[1..] == run + rest;
    }
  }

  lemma FrameShort(body: seq<Byte>)
    requires 0 !in body && |body| < MAX_RUN
    ensures Frame(body) == HEADER + ([|body| + 1] + body) + [0]
    ensures Frame(body + [0]) == HEADER + ([|body| + 1] + body + [1]) + [0]
  {
    StuffShort(body, []);
    assert [] + body == body;
  }

  lemma HelloPayloads()
    ensures PutMessage(Hello([0x76], None)) == [1, 1, 0x76] + [0]
    ensures PutMessage(Hello([0x76], Some(300))) == [1, 1, 0x76, 1, 0xac, 2]
  {
    assert PutVarint(300) == [0xac] + PutVarint(2);
    assert PutString([0x76]) == [1, 0x76];
  }

  /** The device's messages, byte for byte. */
  lemma RequestByteForByte()
    ensures EncodeDevice(ShutdownRequested) == [0xa5, 0x5a, 0x0a, 0x01, 0x01, 0x00]
  {
    FrameShort([]);
    assert [] + [0] == [0];
  }

  lemma ShortFrames(body: seq<Byte>, plain: seq<Byte>)
    requires body == [1, 1, 0x76] && plain == [1, 1, 0x76, 1, 0xac, 2]
    ensures Frame(body + [0]) == [0xa5, 0x5a, 0x0a, 0x04, 0x01, 0x01, 0x76, 0x01, 0x00]
    ensures Frame(plain) == [0xa5, 0x5a, 0x0a, 0x07, 0x01, 0x01, 0x76, 0x01, 0xac, 0x02, 0x00]
  {
    FrameShort(body);
    FrameShort(plain);
  }

  lemma FramesByteForByte()
    ensures EncodeDevice(Hello([0x76], None)) == [0xa5, 0x5a, 0x0a, 0x04, 0x01, 0x01, 0x76, 0x01, 0x00]
    ensures EncodeDevice(Hello([0x76], Some(300))) == [0xa5, 0x5a, 0x0a, 0x07, 0x01, 0x01, 0x76, 0x01, 0xac, 0x02, 0x00]
  {
    HelloPayloads();
    ShortFrames([1, 1, 0x76], [1, 1, 0x76, 1, 0xac, 2]);
  }
}
