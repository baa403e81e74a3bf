/** The device-to-daemon byte stream end to end: what the daemon decodes is what the device
    started to send, and a daemon that opens the port in mid-frame loses only that frame. */
module Stream {
  import opened Common
  import opened Cobs
  import opened Protocol
  import opened Wire
  import opened FrameDecoding
  import opened UsbTransmit

  function DecodeEvent(event: Event): Result<DeviceMessage> {
    match event
    case Err(e) => Err(e)
    case Ok(frame) => DecodeDevice(frame)
  }

  function DecodeEvents(events: seq<Event>): seq<Result<DeviceMessage>> {
    seq(|events|, i requires 0 <= i < |events| => DecodeEvent(events[i]))
  }

  /** What a receiver that listens from the start makes of a stream. */
  function Received(stream: seq<Byte>): seq<Result<DeviceMessage>> {
    DecodeEvents(Events(MAX_DEVICE_FRAME_LEN, FRESH, stream))
  }

  /** What a receiver that joins anywhere makes of it. */
  function Joined(stream: seq<Byte>): seq<Result<DeviceMessage>> {
    DecodeEvents(EventsAfterJoin(MAX_DEVICE_FRAME_LEN, stream))
  }

  function AllOk(messages: seq<DeviceMessage>): seq<Result<DeviceMessage>> {
    seq(|messages|, i requires 0 <= i < |messages| => Ok(messages[i]))
  }

  ghost predicate AllFit(messages: seq<DeviceMessage>) {
    forall i :: 0 <= i < |messages| ==> |DEVICE.encode(messages[i])| <= DEVICE.limit
  }

  /** The frame of a message without its delimiter. */
  function Body(message: DeviceMessage): (r: seq<Byte>)
    ensures EncodeDevice(message) == r + [0] && r != [] && 0 !in r
  {
    FrameIsDelimited(PutMessage(message));
    var f := EncodeDevice(message);
    f[..|f| - 1]
  }

  /** The image of every element, in order. */
  function Mapped<T, U>(f: T -> U, s: seq<T>): seq<U> {
    seq(|s|, i requires 0 <= i < |s| => f(s[i]))
  }

  lemma MappedFrom<T, U>(f: T -> U, s: seq<T>, n: nat)
    requires n <= |s|
    ensures Mapped(f, s)[n..] == Mapped(f, s[n..])
    ensures Mapped(f, s)[..n] == Mapped(f, s[..n])
  {
  }

  const BODY: DeviceMessage -> seq<Byte> := (m: DeviceMessage) => Body(m)

  function Bodies(messages: seq<DeviceMessage>): seq<seq<Byte>> {
    Mapped(BODY, messages)
  }

  lemma {:induction false} FramesAreDelimitedBodies(messages: seq<DeviceMessage>)
    ensures FramesOf(DEVICE, messages) == Delimited(Bodies(messages)) && ZeroFree(Bodies(messages))
  {
    if messages != [] {
      FramesAreDelimitedBodies(messages[1..]);
      OneFrameAhead(messages);
    }
  }

  lemma OneFrameAhead(messages: seq<DeviceMessage>)
    requires messages != []
    ensures FramesOf(DEVICE, messages) == Body(messages[0]) + [0] + FramesOf(DEVICE, messages[1..])
    ensures Bodies(messages)[0] == Body(messages[0]) && Bodies(messages)[1..] == Bodies(messages[1..])
    ensures 0 !in Body(messages[0])
  {
    FirstFrameApart(DEVICE, messages);
    EncodesBody(messages[0]);
    BodiesFrom(messages, 1);
  }

  lemma EncodesBody(m: DeviceMessage)
    ensures DEVICE.encode(m) == Body(m) + [0]
  {
  }

  lemma BodiesDecode(messages: seq<DeviceMessage>)
    requires AllFit(messages)
    ensures DecodeEvents(ClassifyAll(MAX_DEVICE_FRAME_LEN, Bodies(messages))) == AllOk(messages)
  {
    forall i | 0 <= i < |messages|
      ensures DecodeEvent(Classify(MAX_DEVICE_FRAME_LEN, Body(messages[i]))) == Ok(messages[i])
    {
      assert DEVICE.encode(messages[i]) == EncodeDevice(messages[i]);
      DeviceRoundTrip(messages[i]);
    }
  }

  lemma ReceiveAll(messages: seq<DeviceMessage>, partial: seq<Byte>)
    requires AllFit(messages) && 0 !in partial
    ensures Received(FramesOf(DEVICE, messages) + partial) == AllOk(messages)
  {
    FramesAreDelimitedBodies(messages);
    EventsOfDelimited(MAX_DEVICE_FRAME_LEN, Bodies(messages), partial);
    BodiesDecode(messages);
  }

  /** The bytes on the line are whole frames and a zero-free start of the last one. */
  lemma WireSplits(tx: Tx<DeviceMessage>) returns (partial: seq<Byte>)
    requires Faithful(DEVICE, tx)
    ensures AllFit(Completed(tx)) && 0 !in partial
    ensures tx.wire == FramesOf(DEVICE, Completed(tx)) + partial
  {
    if tx.unsent == [] {
      partial := [];
      assert tx.wire + [] == tx.wire;
    } else {
      LastFrameIsCut(DEVICE, tx);
      var body := Body(tx.sent[|tx.sent| - 1]);
      partial := (body + [0])[..|body| + 1 - |tx.unsent|];
      StartOfFrame(body, |partial|);
    }
  }

  lemma StartOfFrame(body: seq<Byte>, n: nat)
    requires 0 !in body && n <= |body|
    ensures 0 !in (body + [0])[..n]
  {
    assert (body + [0])[..n] == body[..n];
  }

  /** For every interleaving and every refusal pattern the daemon decodes exactly the
      messages that left the queue, in order, once each, as soon as their frame is out. */
  lemma EndToEnd(ops: seq<TxOp<DeviceMessage>>)
    ensures var tx := Run(DEVICE, Tx([], [], [], [], []), ops);
      && Received(tx.wire) == AllOk(Completed(tx))
      && Subsequence(tx.sent + tx.queue, tx.log)
      && |tx.sent| - |Completed(tx)| <= 1
  {
    TransmitIsFaithful(DEVICE, ops);
    var tx := Run(DEVICE, Tx([], [], [], [], []), ops);
    var partial := WireSplits(tx);
    ReceiveAll(Completed(tx), partial);
  }

  /** A daemon that opens the port at any byte of the line decodes every message whose
      frame starts later, and nothing else. */
  lemma JoinMidStream(ops: seq<TxOp<DeviceMessage>>, k: nat)
    requires k <= |Run(DEVICE, Tx([], [], [], [], []), ops).wire|
    ensures var tx := Run(DEVICE, Tx([], [], [], [], []), ops);
      Joined(tx.wire[k..]) == AllOk(Completed(tx)[StartedBy(Bodies(Completed(tx)), k)..])
  {
    TransmitIsFaithful(DEVICE, ops);
    var tx := Run(DEVICE, Tx([], [], [], [], []), ops);
    var partial := WireSplits(tx);
    JoinFrames(Completed(tx), partial, k);
  }

  lemma JoinFrames(messages: seq<DeviceMessage>, partial: seq<Byte>, k: nat)
    requires AllFit(messages) && 0 !in partial && k <= |FramesOf(DEVICE, messages) + partial|
    ensures Joined((FramesOf(DEVICE, messages) + partial)[k..]) == AllOk(messages[StartedBy(Bodies(messages), k)..])
  {
    var n := StartedBy(Bodies(messages), k);
    FramesAreDelimitedBodies(messages);
    assert FramesOf(DEVICE, messages) + partial == Delimited(Bodies(messages)) + partial;
    JoinAnywhere(MAX_DEVICE_FRAME_LEN, Bodies(messages), partial, k);
    BodiesDecodeFrom(messages, n);
  }

  lemma BodiesDecodeFrom(messages: seq<DeviceMessage>, n: nat)
    requires AllFit(messages) && n <= |messages|
    ensures DecodeEvents(ClassifyAll(MAX_DEVICE_FRAME_LEN, Bodies(messages)[n..])) == AllOk(messages[n..])
  {
    BodiesFrom(messages, n);
    BodiesDecode(messages[n..]);
  }

  lemma BodiesFrom(messages: seq<DeviceMessage>, n: nat)
    requires n <= |messages|
    ensures Bodies(messages)[n..] == Bodies(messages[n..]) && Bodies(messages)[..n] == Bodies(messages[..n])
  {
    MappedFrom(BODY, messages, n);
  }

  /** The daemon's end of the line: nothing is decoded before the first delimiter. */
  datatype InputState = InputState(synchronized: bool, decoder: DecoderState)

  function AcceptStep(st: InputState, byte: Byte): (InputState, seq<Result<DeviceMessage>>)
  {
    if !st.synchronized then
      (if byte == 0 then InputState(true, FRESH) else st, [])
    else
      var next := Step(MAX_DEVICE_FRAME_LEN, st.decoder, byte);
      (st.(decoder := next.0), DecodeEvents(next.1))
  }

  function AcceptAll(st: InputState, stream: seq<Byte>): seq<Result<DeviceMessage>>
    decreases |stream|
  {
    if stream == [] then []
    else AcceptStep(st, stream[0]).1 + AcceptAll(AcceptStep(st, stream[0]).0, stream[1..])
  }

  class SerialInput {
    var synchronized: bool
    var decoder: FrameDecoder

    ghost predicate Valid()
      reads this, decoder
    {
      decoder.Valid() && decoder.bytes.Length == MAX_DEVICE_FRAME_LEN
    }

    ghost function State(): InputState
      reads this, decoder, decoder.bytes
      requires Valid()
    {
      InputState(synchronized, decoder.State())
    }

    /** A freshly opened port. */
    constructor ()
      ensures Valid() && fresh(decoder) && fresh(decoder.bytes) && State() == InputState(false, FRESH)
    {
      synchronized := false;
      decoder := new FrameDecoder(MAX_DEVICE_FRAME_LEN);
    }

    method Accept(byte: Byte) returns (r: Option<Result<DeviceMessage>>)
      requires Valid()
      modifies this, decoder, decoder.bytes
      ensures Valid() && (decoder == old(decoder) || (fresh(decoder) && fresh(decoder.bytes)))
      ensures var next := AcceptStep(old(State()), byte);
        State() == next.0 && next.1 == if r.None? then [] else [r.value]
    {
      if !synchronized {
        if byte == 0 {
          synchronized := true;
          decoder := new FrameDecoder(MAX_DEVICE_FRAME_LEN);
        }
        return None;
      }
      var pushed := decoder.Push(byte);
      match pushed
      case None => return None;
      case Some(Err(e)) => return Some(Err(e));
      case Some(Ok(n)) =>
        ghost var st := decoder.State();
        var decoded := Decode(decoder.bytes, n);
        assert decoder.State().held == [];
        return Some(decoded);
    }
  }

  lemma {:induction false} AcceptSynchronized(st: DecoderState, stream: seq<Byte>)
    ensures AcceptAll(InputState(true, st), stream) == DecodeEvents(Events(MAX_DEVICE_FRAME_LEN, st, stream))
    decreases |stream|
  {
    if stream != [] {
      var next := Step(MAX_DEVICE_FRAME_LEN, st, stream[0]);
      AcceptSynchronized(next.0, stream[1..]);
      DecodeEventsConcat(next.1, Events(MAX_DEVICE_FRAME_LEN, next.0, stream[1..]));
    }
  }

  lemma DecodeEventsConcat(a: seq<Event>, b: seq<Event>)
    ensures DecodeEvents(a + b) == DecodeEvents(a) + DecodeEvents(b)
  {
  }

  /** A byte that yields nothing only moves the input. */
  lemma AcceptSilently(st: InputState, next: InputState, stream: seq<Byte>)
    requires stream != [] && AcceptStep(st, stream[0]) == (next, [])
    ensures AcceptAll(st, stream) == AcceptAll(next, stream[1..])
  {
    var rest := AcceptAll(next, stream[1..]);
    assert [] + rest == rest;
  }

  lemma WaitsForZero(st: DecoderState, byte: Byte)
    ensures AcceptStep(InputState(false, st), byte)
         == (if byte == 0 then InputState(true, FRESH) else InputState(false, st), [])
  {
  }

  lemma JoinedAtZero(stream: seq<Byte>)
    requires stream != [] && stream[0] == 0
    ensures Joined(stream) == DecodeEvents(Events(MAX_DEVICE_FRAME_LEN, FRESH, stream[1..]))
  {
    assert UpToZero(stream) == [];
  }

  /** Byte by byte, the daemon's input decodes exactly what joining the stream means. */
  lemma {:induction false} AcceptIsJoining(st: DecoderState, stream: seq<Byte>)
    ensures AcceptAll(InputState(false, st), stream) == Joined(stream)
    decreases |stream|
  {
    if stream != [] {
      WaitsForZero(st, stream[0]);
      if stream[0] == 0 {
        AcceptSilently(InputState(false, st), InputState(true, FRESH), stream);
        JoinedAtZero(stream);
        AcceptSynchronized(FRESH, stream[1..]);
      } else {
        AcceptSilently(InputState(false, st), InputState(false, st), stream);
        AcceptIsJoining(st, stream[1..]);
        JoinSkips(MAX_DEVICE_FRAME_LEN, stream);
      }
    }
  }
}
