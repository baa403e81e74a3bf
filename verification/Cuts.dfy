/** A frame that a reset of the device cuts short runs into the next one: both are lost, and
    together they are never taken for a shutdown request. */
module CutFrames {
  import opened Common
  import opened Cobs
  import opened Postcard
  import opened Protocol
  import opened Wire
  import opened FrameDecoding
  import opened UsbTransmit
  import opened Stream

  /** The bytes of a frame that were out when the device was reset. */
  function Cut(m: DeviceMessage, k: nat): seq<Byte>
    requires k < |EncodeDevice(m)|
  {
    EncodeDevice(m)[..k]
  }

  // ---------------------------------------------------------------- payloads that are no request

  lemma {:induction false} LowBitsStay(s: seq<Byte>, bytes: nat, top: nat)
    requires s != [] && s[0] > 128
    ensures match TakeVarint(s, bytes, top)
            case None => true
            case Some((value, _)) => value % 128 == s[0] - 128
  {
    if bytes > 0 {
      match TakeVarint(s[1..], bytes - 1, top)
      case None =>
      case Some((high, _)) => Remainder(s[0] - 128, high);
    }
  }

  lemma Remainder(low: nat, high: nat)
    requires low < 128
    ensures (low + 128 * high) % 128 == low
  {
  }

  /** A payload that begins with the magic byte, or with a Hello's tag. */
  lemma NoRequestInside(payload: seq<Byte>)
    requires payload != [] && (payload[0] == MAGIC[0] || payload[0] == 1)
    ensures TakeMessage(payload) != Some(ShutdownRequested)
  {
    if payload[0] == 1 {
      TakeMessageByTag(payload);
    } else {
      LowBitsStay(payload, U32_BYTES, U32_TOP);
    }
  }

  lemma FirstByteUnstuffed(body: seq<Byte>)
    requires |body| >= 2 && body[0] >= 2 && Unstuff(body).Some?
    ensures Unstuff(body).value != [] && Unstuff(body).value[0] == body[1]
  {
    assert body[1..body[0]][0] == body[1];
  }

  /** A code that asks for more bytes than there are, behind up to two empty blocks. */
  lemma CodeTooLarge(body: seq<Byte>)
    requires body != [] && body[0] > |body|
    ensures Unstuff(body) == None && Unstuff([1] + body) == None && Unstuff([1, 1] + body) == None
  {
    assert ([1] + body)[1..] == body;
    assert ([1, 1] + body)[1..] == [1] + body;
  }

  lemma {:induction false} HelloBodyStarts(rest: seq<Byte>, run: seq<Byte>)
    requires 1 <= |run| < MAX_RUN
    ensures StuffFrom(rest, run)[0] >= 2 && StuffFrom(rest, run)[1] == run[0]
    decreases |rest|
  {
    if rest != [] && rest[0] != 0 && |run| + 1 < MAX_RUN {
      HelloBodyStarts(rest[1..], run + [rest[0]]);
    }
  }

  /** The stuffed body of a message: two empty blocks, or a block that begins with a Hello's tag. */
  lemma BodyStarts(m: DeviceMessage)
    ensures var body := Stuff(PutMessage(m));
      if m.ShutdownRequested? then body == [1, 1] else |body| >= 2 && body[0] >= 2 && body[1] == 1
  {
    var payload := PutMessage(m);
    if m.Hello? {
      assert payload[0] == 1 && [] + [payload[0]] == [1];
      HelloBodyStarts(payload[1..], [1]);
    } else {
      StuffShort([], []);
      assert [] + [0] == [0] && Block([]) + [1] == [1, 1];
    }
  }

  // ---------------------------------------------------------------- the two frames together

  /** What the body of a cut frame decodes to, if anything, is no request. */
  lemma CutBodyIsNoRequest(m: DeviceMessage, n: nat, rest: seq<Byte>)
    requires n <= |Stuff(PutMessage(m))| && rest != [] && rest[0] == MAGIC[0]
    requires n + |rest| < MAX_DEVICE_FRAME_LEN
    ensures var payload := Unstuff(Stuff(PutMessage(m))[..n] + rest);
      payload.Some? ==> TakeMessage(payload.value) != Some(ShutdownRequested)
  {
    var stuffed := Stuff(PutMessage(m));
    var body := stuffed[..n] + rest;
    BodyStarts(m);
    CodeTooLarge(rest);
    if n == 0 {
      assert body == rest;
    } else if m.ShutdownRequested? {
      assert stuffed[..n] == if n == 1 then [1] else [1, 1];
    } else if Unstuff(body).Some? {
      assert body[0] == stuffed[0] && body[1] == (if n == 1 then rest[0] else stuffed[1]);
      FirstByteUnstuffed(body);
      NoRequestInside(Unstuff(body).value);
    }
  }

  /** The cut frame with what follows it up to the next delimiter. */
  lemma CutIsNoRequest(m: DeviceMessage, k: nat, rest: seq<Byte>)
    requires 1 <= k < |EncodeDevice(m)| && 0 !in rest && rest != [] && rest[0] == MAGIC[0]
    requires k + |rest| < MAX_DEVICE_FRAME_LEN
    ensures DecodeDevice(Cut(m, k) + rest + [0]) != Ok(ShutdownRequested)
  {
    if k >= 3 {
      LateCutIsNoRequest(m, k, rest);
    } else {
      HeaderIsBroken(EncodeDevice(m), k, rest + [0]);
      assert Cut(m, k) + rest + [0] == Cut(m, k) + (rest + [0]);
    }
  }

  lemma LateCutIsNoRequest(m: DeviceMessage, k: nat, rest: seq<Byte>)
    requires 3 <= k < |EncodeDevice(m)| && 0 !in rest && rest != [] && rest[0] == MAGIC[0]
    requires k + |rest| < MAX_DEVICE_FRAME_LEN
    ensures DecodeDevice(Cut(m, k) + rest + [0]) != Ok(ShutdownRequested)
  {
    var stuffed := Stuff(PutMessage(m));
    CutLayout(stuffed, k, rest);
    UnstuffOfStuff(PutMessage(m));
    ZeroFreeTogether(stuffed, k - 3, rest);
    DecodesBody(stuffed[..k - 3] + rest);
    CutBodyIsNoRequest(m, k - 3, rest);
  }

  lemma CutLayout(stuffed: seq<Byte>, k: nat, rest: seq<Byte>)
    requires 3 <= k <= 3 + |stuffed|
    ensures (HEADER + stuffed + [0])[..k] + rest + [0] == HEADER + (stuffed[..k - 3] + rest + [0])
  {
    assert (HEADER + stuffed + [0])[..k] == HEADER + stuffed[..k - 3];
  }

  lemma ZeroFreeTogether(a: seq<Byte>, n: nat, b: seq<Byte>)
    requires 0 !in a && n <= |a| && 0 !in b
    ensures 0 !in a[..n] + b
  {
  }

  lemma DecodesBody(body: seq<Byte>)
    requires 0 !in body
    ensures DecodePayload(HEADER + (body + [0])) == match Unstuff(body)
                                                    case None => Err(Deserialize)
                                                    case Some(payload) => Ok(payload)
  {
    var frame := HEADER + (body + [0]);
    assert frame[3..] == body + [0] + [] && frame[..2] == MAGIC;
    UpToZeroOfTerminated(body, []);
  }

  /** A header that another one begins in. */
  lemma HeaderIsBroken(frame: seq<Byte>, k: nat, rest: seq<Byte>)
    requires 1 <= k < 3 <= |frame| && HEADER <= frame && rest != [] && rest[0] == MAGIC[0]
    ensures DecodeDevice(frame[..k] + rest) != Ok(ShutdownRequested)
  {
    var segment := frame[..k] + rest;
    OnlyThisVersionIsAccepted(segment);
    assert segment[k] == MAGIC[0] != HEADER[k];
  }

  /** A reset in mid-frame, whatever the device had sent before and sends afterwards: `rest` is
      the next frame without its delimiter, or further cut frames and then one. Everything else
      is decoded as if there had been no reset; the two frames together yield one result, and
      that is not a shutdown request. */
  lemma ResetInMidFrame(earlier: seq<DeviceMessage>, m: DeviceMessage, k: nat, rest: seq<Byte>,
                        later: seq<DeviceMessage>, partial: seq<Byte>)
    returns (lost: Result<DeviceMessage>)
    requires AllFit(earlier) && AllFit(later) && 0 !in partial
    requires 1 <= k < |EncodeDevice(m)| && 0 !in rest && rest != [] && rest[0] == MAGIC[0]
    ensures Received(FramesOf(DEVICE, earlier) + (Cut(m, k) + rest + [0] + (FramesOf(DEVICE, later) + partial)))
         == AllOk(earlier) + ([lost] + AllOk(later))
    ensures lost != Ok(ShutdownRequested)
  {
    var segment, behind := Cut(m, k) + rest, FramesOf(DEVICE, later) + partial;
    lost := DecodeEvent(Classify(MAX_DEVICE_FRAME_LEN, segment));
    if |segment| < MAX_DEVICE_FRAME_LEN {
      CutIsNoRequest(m, k, rest);
    }
    CutIsZeroFree(m, k);
    ReceivedBehindSegment(segment, behind);
    ReceiveAll(later, partial);
    ReceivedBehindFrames(earlier, segment + [0] + behind);
  }

  lemma CutIsZeroFree(m: DeviceMessage, k: nat)
    requires k < |EncodeDevice(m)|
    ensures 0 !in Cut(m, k)
  {
    FrameIsDelimited(PutMessage(m));
    assert Cut(m, k) == EncodeDevice(m)[..|EncodeDevice(m)| - 1][..k];
  }

  lemma ReceivedBehindSegment(segment: seq<Byte>, behind: seq<Byte>)
    requires 0 !in segment
    ensures Received(segment + [0] + behind)
         == [DecodeEvent(Classify(MAX_DEVICE_FRAME_LEN, segment))] + Received(behind)
  {
    RunSegment(MAX_DEVICE_FRAME_LEN, segment, behind);
    DecodeEventsConcat([Classify(MAX_DEVICE_FRAME_LEN, segment)], Events(MAX_DEVICE_FRAME_LEN, FRESH, behind));
  }

  lemma {:induction false} ReceivedBehindFrames(messages: seq<DeviceMessage>, behind: seq<Byte>)
    requires AllFit(messages)
    ensures Received(FramesOf(DEVICE, messages) + behind) == AllOk(messages) + Received(behind)
  {
    if messages == [] {
      assert FramesOf(DEVICE, messages) + behind == behind && AllOk(messages) + Received(behind) == Received(behind);
    } else {
      var m, others := messages[0], messages[1..];
      ReceivedBehindFrames(others, behind);
      OneFrameAhead(messages);
      ReceivedBehindOne(m, FramesOf(DEVICE, messages), FramesOf(DEVICE, others), behind);
      AllOkFirst(messages);
      Regrouped([Ok(m)], AllOk(others), Received(behind));
    }
  }

  lemma AllOkFirst(messages: seq<DeviceMessage>)
    requires messages != []
    ensures AllOk(messages) == [Ok(messages[0])] + AllOk(messages[1..])
  {
  }

  lemma ReceivedBehindOne(m: DeviceMessage, frames: seq<Byte>, tail: seq<Byte>, behind: seq<Byte>)
    requires |DEVICE.encode(m)| <= DEVICE.limit && frames == Body(m) + [0] + tail
    ensures Received(frames + behind) == [Ok(m)] + Received(tail + behind)
  {
    Regrouped(Body(m) + [0], tail, behind);
    ReceivedBehindSegment(Body(m), tail + behind);
    BodyDecodes(m);
  }

  lemma BodyDecodes(m: DeviceMessage)
    requires |DEVICE.encode(m)| <= DEVICE.limit
    ensures DecodeEvent(Classify(MAX_DEVICE_FRAME_LEN, Body(m))) == Ok(m)
  {
    EncodesBody(m);
    DeviceRoundTrip(m);
  }

  // ---------------------------------------------------------------- what such frames can be taken for

  lemma SmallHellos()
    ensures PutMessage(Hello([], Some(16384))) == [1, 0, 1, 0x80, 0x80, 1]
    ensures PutMessage(Hello([], Some(11557))) == [1, 0, 1, 0xa5, 0x5a]
    ensures PutMessage(Hello([], None)) == [1, 0, 0]
  {
    assert PutVarint(16384) == [0x80] + PutVarint(128);
    assert PutVarint(128) == [0x80] + PutVarint(1);
    assert PutVarint(11557) == [0xa5] + PutVarint(0x5a);
    assert PutString([]) == [0];
  }

  /** A block of one byte with a zero behind it. */
  lemma StuffOne(byte: Byte, rest: seq<Byte>)
    requires byte != 0
    ensures Stuff([byte, 0] + rest) == [2, byte] + Stuff(rest)
  {
    var payload := [byte, 0] + rest;
    assert payload[1..] == [0] + rest && ([0] + rest)[1..] == rest && [] + [byte] == [byte];
    assert StuffFrom(payload, []) == StuffFrom([0] + rest, [byte]);
  }

  lemma SmallAnswerFrame()
    ensures EncodeDevice(Hello([], Some(16384))) == HEADER + [2, 1, 5, 1, 0x80, 0x80, 1] + [0]
  {
    SmallHellos();
    var answer: seq<Byte> := [1, 0x80, 0x80, 1];
    assert [1, 0, 1, 0x80, 0x80, 1] == [1, 0] + answer;
    StuffOne(1, answer);
    StuffShort(answer, []);
    assert [] + answer == answer && [2, 1] + Block(answer) == [2, 1, 5, 1, 0x80, 0x80, 1];
  }

  lemma FirstHelloFrame()
    ensures EncodeDevice(Hello([], None)) == HEADER + [2, 1, 1, 1] + [0]
  {
    SmallHellos();
    assert [1, 0, 0] == [1, 0] + [0] && [0] == [] + [0];
    StuffOne(1, [0]);
    StuffShort([], []);
    assert [] + [0] == [0] && Block([]) + [1] == [1, 1] && [2, 1] + [1, 1] == [2, 1, 1, 1];
  }

  lemma UnstuffNext(run: seq<Byte>, tail: seq<Byte>, body: seq<Byte>, value: seq<Byte>)
    requires |run| < MAX_RUN && tail != [] && Unstuff(tail) == Some(value) && body == [|run| + 1] + run + tail
    ensures Unstuff(body) == Some(run + [0] + value)
  {
    UnstuffBlock(run, tail);
    assert Block(run) + tail == body;
  }

  lemma SmallTailUnstuffed()
    ensures Unstuff([2, 1, 1, 1]) == Some([1, 0, 0])
  {
    var last: seq<Byte> := [1];
    assert last[1..1] + [] + [] == [];
    assert Unstuff(last[1..]) == Some([]) && Unstuff(last) == Some([]);
    UnstuffNext([], last, [1, 1], []);
    assert [] + [0] + [] == [0];
    UnstuffNext([1], [1, 1], [2, 1, 1, 1], [0]);
    assert [1] + [0] + [0] == [1, 0, 0];
  }

  lemma SmallMiddleUnstuffed()
    ensures Unstuff([5, 1, 0xa5, 0x5a, 0x0a, 2, 1, 1, 1]) == Some([1, 0xa5, 0x5a, 0x0a, 0, 1, 0, 0])
  {
    SmallTailUnstuffed();
    var three: seq<Byte> := [1, 0xa5, 0x5a, 0x0a];
    assert [5, 1, 0xa5, 0x5a, 0x0a, 2, 1, 1, 1] == [5] + three + [2, 1, 1, 1];
    UnstuffNext(three, [2, 1, 1, 1], [5, 1, 0xa5, 0x5a, 0x0a, 2, 1, 1, 1], [1, 0, 0]);
    assert three + [0] + [1, 0, 0] == [1, 0xa5, 0x5a, 0x0a, 0, 1, 0, 0];
  }

  lemma SmallBodyUnstuffed()
    ensures Unstuff([2, 1, 5, 1, 0xa5, 0x5a, 0x0a, 2, 1, 1, 1]) == Some([1, 0, 1, 0xa5, 0x5a, 0x0a, 0, 1, 0, 0])
  {
    SmallMiddleUnstuffed();
    var middle: seq<Byte> := [5, 1, 0xa5, 0x5a, 0x0a, 2, 1, 1, 1];
    assert [2] + [1] + middle == [2, 1, 5, 1, 0xa5, 0x5a, 0x0a, 2, 1, 1, 1];
    UnstuffNext([1], middle, [2] + [1] + middle, [1, 0xa5, 0x5a, 0x0a, 0, 1, 0, 0]);
    assert [1] + [0] + [1, 0xa5, 0x5a, 0x0a, 0, 1, 0, 0] == [1, 0, 1, 0xa5, 0x5a, 0x0a, 0, 1, 0, 0];
  }

  lemma CutAndFirstHello()
    ensures Cut(Hello([], Some(16384)), 7) + EncodeDevice(Hello([], None))
         == HEADER + ([2, 1, 5, 1, 0xa5, 0x5a, 0x0a, 2, 1, 1, 1] + [0])
  {
    SmallAnswerFrame();
    FirstHelloFrame();
    assert Cut(Hello([], Some(16384)), 7) == HEADER + [2, 1, 5, 1];
  }

  lemma AnotherHelloInside()
    ensures TakeMessage([1, 0, 1, 0xa5, 0x5a, 0x0a, 0, 1, 0, 0]) == Some(Hello([], Some(11557)))
  {
    SmallHellos();
    MessageRoundTrip(Hello([], Some(11557)), [0x0a, 0, 1, 0, 0]);
    assert [1, 0, 1, 0xa5, 0x5a] + [0x0a, 0, 1, 0, 0] == [1, 0, 1, 0xa5, 0x5a, 0x0a, 0, 1, 0, 0];
  }

  /** But they can be taken for a Hello that was never sent: a device that is reset behind seven
      bytes of its answer to one challenge, and then says its first Hello, is heard to answer
      another. */
  lemma CutHelloIsAnotherHello()
    ensures DecodeDevice(Cut(Hello([], Some(16384)), 7) + EncodeDevice(Hello([], None)))
         == Ok(Hello([], Some(11557)))
  {
    CutAndFirstHello();
    DecodesBody([2, 1, 5, 1, 0xa5, 0x5a, 0x0a, 2, 1, 1, 1]);
    SmallBodyUnstuffed();
    AnotherHelloInside();
  }
}
