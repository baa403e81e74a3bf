/** The bytes below the link: the transmit path's queue and frames are the link's queue and
    lines, and every run of bytes written, lost and read one by one is a run of the link. */
module Bytes {
  import opened Common
  import opened Protocol
  import opened Wire
  import opened FrameDecoding
  import opened UsbTransmit
  import opened Stream
  import opened Stick
  import opened Link
  import TurnRefinement

  /** The link's queue says what the transmit queue holds. */
  ghost predicate Queues(l: World, tx: Tx<DeviceMessage>) {
    TurnRefinement.Said(l.queue) == AllOk(tx.queue)
  }

  /** Offering a message is the same in both, a full queue and a pressing request included. */
  lemma EnqueueIsQueued(l: World, tx: Tx<DeviceMessage>, m: DeviceMessage)
    requires Queues(l, tx)
    ensures Queues(Queued(l, m), Apply(DEVICE, tx, Enqueue(m)))
  {
    assert |l.queue| == |TurnRefinement.Said(l.queue)| == |tx.queue|;
    var line := Intact(Sent(m, Origin(l.stick.mode, l.stick.session, l.opening, l.nextId)));
    assert DEVICE.urgent(m) == m.ShutdownRequested?;
    OfferedSays(l.queue, tx.queue, line, m, m.ShutdownRequested?);
  }

  lemma OfferedSays(lines: seq<Line>, messages: seq<DeviceMessage>, line: Line, m: DeviceMessage, urgent: bool)
    requires TurnRefinement.Said(lines) == AllOk(messages) && Decoded(line) == Ok(m)
    ensures TurnRefinement.Said(Offered(lines, line, urgent)) == AllOk(Offered(messages, m, urgent))
  {
    assert |lines| == |TurnRefinement.Said(lines)| == |messages|;
    forall k | 0 <= k < |lines| ensures Decoded(lines[k]) == Ok(messages[k]) {
      assert TurnRefinement.Said(lines)[k] == AllOk(messages)[k];
    }
  }

  /** Starting a frame is the link's Emit; a frame that does not fit is emitted and lost. */
  lemma LoadIsEmit(l: World, tx: Tx<DeviceMessage>)
    requires Queues(l, tx) && tx.unsent == [] && tx.queue != []
    ensures var e, loaded := Next(l, Emit), Loaded(DEVICE, tx);
      && Queues(e, loaded)
      && TurnRefinement.Said(e.toHost) == TurnRefinement.Said(l.toHost) + [Ok(tx.queue[0])]
      && loaded.sent == tx.sent + (if |DEVICE.encode(tx.queue[0])| <= DEVICE.limit then [tx.queue[0]] else [])
  {
    assert |l.queue| == |TurnRefinement.Said(l.queue)| == |tx.queue|;
    forall k | 0 <= k < |l.queue| ensures Decoded(l.queue[k]) == Ok(tx.queue[k]) {
      assert TurnRefinement.Said(l.queue)[k] == AllOk(tx.queue)[k];
    }
  }

  // ---------------------------------------------------------------- a run, byte by byte

  /** The device with its transmit path, the bytes of its line of which the daemon's port has taken
      `at`, the daemon's input path and its session, and the requests it has handled. The other
      line and the history are those of the link, which is moved beside them. */
  datatype Wired = Wired(
    stick: State, tx: Tx<DeviceMessage>, at: nat, input: InputState, host: Session, handled: nat, world: World)

  datatype Happening =
    | DeviceActs(act: Act)      // resets only between two frames
    | Polls(accepted: nat)      // the peripheral takes this many bytes, then refuses
    | ReadsByte
    | LosesByte                 // nobody has opened the port
    | HostActs(act: Act)        // opens at the byte where the line is, closes, writes
    | LineMoves(act: Act)       // faults of the other line

  /** What the device does in a step that is no reset. */
  function DeviceOutcome(w: Wired, a: Act): Outcome
  {
    match a
    case Tick(now) => HelloTick(w.stick, now)
    case Take(now) =>
      if w.world.toStick == [] then Outcome(w.stick, [], false) else Receive(w.stick, now, w.world.toStick[0])
    case Grow(now) => Outcome(Age(w.stick, now), [], false)
    case Push(now, action, held) => Press(w.stick, now, action, held)
    case Time(now, usb) => Outcome(ShutdownTimers(w.stick, now, usb), [], false)
    case _ => Outcome(w.stick, [], false)
  }

  /** What it then offers to its transmit path. */
  function Offers(tx: Tx<DeviceMessage>, o: Outcome): Tx<DeviceMessage> {
    if o.request then Apply(DEVICE, tx, Enqueue(ShutdownRequested))
    else if o.hellos != [] then Apply(DEVICE, tx, Enqueue(Hello(VERSION, o.hellos[0])))
    else tx
  }

  function DeviceAfter(w: Wired, a: Act): Wired {
    if a.Reboot? then
      w.(stick := Booted(a.now), tx := Apply(DEVICE, w.tx.(queue := []), Enqueue(Hello(VERSION, None))))
    else
      w.(stick := DeviceOutcome(w, a).state, tx := Offers(w.tx, DeviceOutcome(w, a)))
  }

  /** The daemon opens the port, closes it, or writes, which changes nothing but the line. */
  function HostAfter(w: Wired, a: Act): Wired
  {
    match a
    case Open(nonce) =>
      if w.host.open || nonce in w.world.used then w
      else w.(host := Session(true, nonce, false, false), input := InputState(false, FRESH))
    case Close => w.(host := w.host.(open := false))
    case _ => w
  }

  /** The daemon's answer to what its input path yields for a byte. */
  function Answered(h: Session, handled: nat, results: seq<Result<DeviceMessage>>): (Session, nat)
  {
    if results == [] then (h, handled)
    else if HandsOver(h, results[0]) then (h, handled + 1)
    else (OnFrame(h, results[0]), handled)
  }

  function HavingReadByte(w: Wired): Wired
    requires w.at < |w.tx.wire|
  {
    var (input, results) := AcceptStep(w.input, w.tx.wire[w.at]);
    var (h, handled) := Answered(w.host, w.handled, results);
    w.(at := w.at + 1, input := input, host := h.(synchronized := input.synchronized), handled := handled)
  }

  predicate OfDevice(a: Act) {
    a.Reboot? || a.Tick? || a.Take? || a.Grow? || a.Push? || a.Time?
  }

  predicate OfHost(a: Act) {
    a.Open? || a.Close? || a.Greet? || a.Tell?
  }

  /** Whether this happens at all. */
  predicate Happens(w: Wired, h: Happening)
  {
    match h
    case DeviceActs(a) => OfDevice(a) && (a.Reboot? ==> w.tx.unsent == [])
    case Polls(_) => true
    case ReadsByte => w.host.open && w.at < |w.tx.wire|
    case LosesByte => !w.host.open && w.at < |w.tx.wire|
    case HostActs(a) => OfHost(a)
    case LineMoves(a) => a.LoseToStick? || a.BreakToStick?
  }

  function BytesAfter(w: Wired, h: Happening): Wired
    requires Happens(w, h)
  {
    match h
    case DeviceActs(a) => DeviceAfter(w, a)
    case Polls(accepted) => w.(tx := Apply(DEVICE, w.tx, Poll(accepted)))
    case ReadsByte => HavingReadByte(w)
    case LosesByte => w.(at := w.at + 1)
    case HostActs(a) => HostAfter(w, a)
    case LineMoves(_) => w
  }

  /** The step of the link that this is, if it is one: a frame goes out with its first byte and
      comes in with its last, and all other bytes are no steps. */
  function ActOf(w: Wired, h: Happening): Option<Act>
    requires Happens(w, h)
  {
    match h
    case DeviceActs(a) => Some(a)
    case Polls(_) => if w.tx.unsent == [] && w.tx.queue != [] then Some(Emit) else None
    case ReadsByte => if w.tx.wire[w.at] == 0 then Some(Read) else None
    case LosesByte => if w.tx.wire[w.at] == 0 then Some(LoseToHost(0)) else None
    case HostActs(a) => Some(a)
    case LineMoves(a) => Some(a)
  }

  function After(w: Wired, h: Happening): Wired
  {
    if !Happens(w, h) then w
    else
      BytesAfter(w, h).(world := match ActOf(w, h)
                                 case None => w.world
                                 case Some(a) => Next(w.world, a))
  }

  function Begun(nonce: Nonce, start: int): Wired {
    Wired(Booted(start), Apply(DEVICE, Tx([], [], [], [], []), Enqueue(Hello(VERSION, None))), 0,
          InputState(false, FRESH), Session(false, nonce, false, false), 0, Start(nonce, start))
  }

  function Happened(w: Wired, hs: seq<Happening>): Wired
    decreases |hs|
  {
    if hs == [] then w else After(Happened(w, hs[..|hs| - 1]), hs[|hs| - 1])
  }

  // ---------------------------------------------------------------- what every happening keeps

  ghost predicate Fits(m: DeviceMessage) {
    |DEVICE.encode(m)| <= DEVICE.limit
  }

  /** `over` frames are over where the port has got to, and `partial` of the next one; a port that
      is synchronised has its decoder hold exactly that. */
  ghost predicate LineTied(w: Wired, over: nat, partial: seq<Byte>)
  {
    && w.at <= |w.tx.wire| && over <= |w.tx.sent| && 0 !in partial
    && w.tx.wire[..w.at] == FramesOf(DEVICE, w.tx.sent[..over]) + partial
    && TurnRefinement.Said(w.world.toHost) == AllOk(w.tx.sent[over..])
    && (w.host.open && w.input.synchronized ==> w.input.decoder == DecoderState(partial, false))
  }

  ghost predicate Tied(w: Wired, over: nat, partial: seq<Byte>)
  {
    && w.world.stick == w.stick && w.world.host == w.host && |w.world.handed| == w.handled
    && (w.host.open ==> w.input.synchronized == w.host.synchronized)
    && Queues(w.world, w.tx) && Faithful(DEVICE, w.tx) && (forall m :: m in w.tx.queue ==> Fits(m))
    && LineTied(w, over, partial)
  }

  lemma OurMessagesFit(session: Option<Nonce>)
    ensures Fits(Hello(VERSION, session)) && Fits(ShutdownRequested)
  {
    HelloFitsExactly(VERSION);
    assert |EncodeDevice(Hello(VERSION, session))| <= MAX_DEVICE_FRAME_LEN;
    ShutdownRequestFits(ShutdownRequested);
  }

  // ---------------------------------------------------------------- one byte of the line

  lemma FrameAhead(wire: seq<Byte>, unsent: seq<Byte>, front: seq<Byte>, rest: seq<Byte>, at: nat, partial: seq<Byte>)
    requires wire + unsent == front + rest && at < |wire| && wire[..at] == front + partial
    ensures |partial| < |rest| && rest[|partial|] == wire[at] && partial == rest[..|partial|]
  {
    assert wire[at] == (wire + unsent)[at] == (front + rest)[at];
    assert wire[..at] == (wire + unsent)[..at] == (front + rest)[..at];
    assert partial == wire[..at][|front|..];
  }

  lemma BodyAhead(body: seq<Byte>, rest: seq<Byte>, tail: seq<Byte>, partial: seq<Byte>)
    requires rest == body + [0] + tail && 0 !in body && 0 !in partial
    requires |partial| < |rest| && partial == rest[..|partial|]
    ensures |partial| <= |body| && (rest[|partial|] == 0 <==> partial == body)
    ensures rest[|partial|] != 0 ==> |partial| < |body|
  {
    assert rest[|body|] == 0;
    forall n | |body| < n <= |rest|
      ensures 0 in rest[..n]
    {
      assert rest[..n][|body|] == 0;
    }
    assert rest[..|partial|] == body[..|partial|];
    assert |partial| < |body| ==> rest[|partial|] == body[|partial|];
  }

  /** The byte the port takes next belongs to the first frame that is not over, and is its
      delimiter exactly if the frame's body has been taken. */
  lemma NextByte(w: Wired, over: nat, partial: seq<Byte>)
    requires Faithful(DEVICE, w.tx) && LineTied(w, over, partial) && w.at < |w.tx.wire|
    ensures over < |w.tx.sent|
    ensures var body, byte := Body(w.tx.sent[over]), w.tx.wire[w.at];
      && |partial| <= |body| < MAX_DEVICE_FRAME_LEN && (byte == 0 <==> partial == body)
      && (byte != 0 ==> |partial| < |body|)
    ensures var byte := w.tx.wire[w.at];
      w.tx.wire[..w.at + 1]
      == if byte == 0 then FramesOf(DEVICE, w.tx.sent[..over + 1]) + []
         else FramesOf(DEVICE, w.tx.sent[..over]) + (partial + [byte])
  {
    SomeFrameIsAhead(w, over, partial);
    var tx, front, body := w.tx, FramesOf(DEVICE, w.tx.sent[..over]), Body(w.tx.sent[over]);
    ByteOfBody(tx.wire, tx.unsent, front, body, FramesOf(DEVICE, tx.sent[over + 1..]), w.at, partial);
    BodyIsShort(tx.sent[over]);
    assert front + (body + [0]) + [] == FramesOf(DEVICE, tx.sent[..over + 1]) + [];
  }

  lemma SomeFrameIsAhead(w: Wired, over: nat, partial: seq<Byte>)
    requires Faithful(DEVICE, w.tx) && LineTied(w, over, partial) && w.at < |w.tx.wire|
    ensures over < |w.tx.sent|
    ensures var sent, body := w.tx.sent, Body(w.tx.sent[over]);
      && w.tx.wire + w.tx.unsent
         == FramesOf(DEVICE, sent[..over]) + (body + [0] + FramesOf(DEVICE, sent[over + 1..]))
      && FramesOf(DEVICE, sent[..over + 1]) == FramesOf(DEVICE, sent[..over]) + (body + [0])
  {
    var sent := w.tx.sent;
    var front, rest := FramesOf(DEVICE, sent[..over]), FramesOf(DEVICE, sent[over..]);
    FramesSplit(sent, over);
    FrameAhead(w.tx.wire, w.tx.unsent, front, rest, w.at, partial);
    FramesAreOfMessages(sent[over..]);
    FirstFrameIsAhead(sent, over);
  }

  lemma FramesSplit(sent: seq<DeviceMessage>, over: nat)
    requires over <= |sent|
    ensures FramesOf(DEVICE, sent) == FramesOf(DEVICE, sent[..over]) + FramesOf(DEVICE, sent[over..])
  {
    assert sent == sent[..over] + sent[over..];
    FramesInTwo(sent, sent[..over], sent[over..]);
  }

  lemma FramesAreOfMessages(messages: seq<DeviceMessage>)
    requires FramesOf(DEVICE, messages) != []
    ensures messages != []
  {
  }

  lemma ByteOfBody(wire: seq<Byte>, unsent: seq<Byte>, front: seq<Byte>, body: seq<Byte>, tail: seq<Byte>, at: nat,
                   partial: seq<Byte>)
    requires wire + unsent == front + (body + [0] + tail) && at < |wire| && wire[..at] == front + partial
    requires 0 !in body && 0 !in partial
    ensures |partial| <= |body| && (wire[at] == 0 <==> partial == body) && (wire[at] != 0 ==> |partial| < |body|)
    ensures wire[..at + 1] == if wire[at] == 0 then front + (body + [0]) + [] else front + (partial + [wire[at]])
  {
    var rest := body + [0] + tail;
    FrameAhead(wire, unsent, front, rest, at, partial);
    BodyAhead(body, rest, tail, partial);
    OneByteMore(wire, at, front, partial, body);
  }

  lemma FramesInTwo(all: seq<DeviceMessage>, a: seq<DeviceMessage>, b: seq<DeviceMessage>)
    requires all == a + b
    ensures FramesOf(DEVICE, all) == FramesOf(DEVICE, a) + FramesOf(DEVICE, b)
  {
    FlatMapConcat(DEVICE.encode, a, b);
  }

  lemma BodyIsShort(m: DeviceMessage)
    ensures |DEVICE.encode(m)| == |Body(m)| + 1
  {
    EncodesBody(m);
  }

  lemma OneByteMore(wire: seq<Byte>, at: nat, front: seq<Byte>, partial: seq<Byte>, body: seq<Byte>)
    requires at < |wire| && wire[..at] == front + partial
    ensures wire[..at + 1] == front + (partial + [wire[at]])
    ensures wire[at] == 0 && partial == body ==> wire[..at + 1] == front + (body + [0]) + []
  {
    assert wire[..at + 1] == wire[..at] + [wire[at]];
  }

  lemma FirstFrameIsAhead(sent: seq<DeviceMessage>, over: nat)
    requires over < |sent|
    ensures FramesOf(DEVICE, sent[over..]) == Body(sent[over]) + [0] + FramesOf(DEVICE, sent[over + 1..])
    ensures FramesOf(DEVICE, sent[..over + 1]) == FramesOf(DEVICE, sent[..over]) + (Body(sent[over]) + [0])
  {
    var rest := sent[over..];
    FirstFrameApart(DEVICE, rest);
    EncodesBody(sent[over]);
    assert rest[0] == sent[over] && rest[1..] == sent[over + 1..];
    assert sent[..over + 1] == sent[..over] + [sent[over]];
    FlatMapAppend(DEVICE.encode, sent[..over], sent[over]);
  }

  /** A byte within a frame only moves the decoder; a delimiter yields the frame's message, once
      the port is synchronised. */
  lemma ByteYields(input: InputState, body: seq<Byte>, m: DeviceMessage, partial: seq<Byte>, byte: Byte)
    requires body == Body(m) && |partial| <= |body| < MAX_DEVICE_FRAME_LEN && (byte == 0 <==> partial == body)
    requires byte != 0 ==> |partial| < |body|
    requires input.synchronized ==> input.decoder == DecoderState(partial, false)
    ensures AcceptStep(input, byte)
         == if byte == 0 then (InputState(true, FRESH), if input.synchronized then [Ok(m)] else [])
            else (InputState(input.synchronized,
                             if input.synchronized then DecoderState(partial + [byte], false) else input.decoder), [])
  {
    assert DecodeEvents([]) == [];
    if input.synchronized && byte == 0 {
      assert Step(MAX_DEVICE_FRAME_LEN, input.decoder, byte) == (FRESH, [Ok(body + [0])]);
      DeviceRoundTrip(m);
      assert DecodeEvents([Ok(body + [0])]) == [Ok(m)];
    }
  }

  /** The lines behind one that is taken. */
  lemma LinesBehind(lines: seq<Line>, sent: seq<DeviceMessage>, over: nat)
    requires over < |sent| && TurnRefinement.Said(lines) == AllOk(sent[over..])
    ensures lines != [] && Decoded(lines[0]) == Ok(sent[over])
    ensures TurnRefinement.Said(lines[1..]) == AllOk(sent[over + 1..])
  {
    assert |lines| == |TurnRefinement.Said(lines)| == |sent| - over;
    assert TurnRefinement.Said(lines)[0] == AllOk(sent[over..])[0];
    forall k | 0 <= k < |lines| - 1
      ensures Decoded(lines[1..][k]) == Ok(sent[over + 1..][k])
    {
      assert TurnRefinement.Said(lines)[k + 1] == AllOk(sent[over..])[k + 1];
    }
  }

  // ---------------------------------------------------------------- every happening is a step or none

  lemma OffersAreMoves(l: World, tx: Tx<DeviceMessage>, o: Outcome)
    requires Queues(l, tx)
    ensures var m := Moved(l, o);
      && Queues(m, Offers(tx, o)) && m.stick == o.state
      && m.toHost == l.toHost && m.host == l.host && m.handed == l.handed
  {
    var l' := l.(stick := o.state);
    if o.request {
      EnqueueIsQueued(l', tx, ShutdownRequested);
    } else if o.hellos != [] {
      EnqueueIsQueued(l', tx, Hello(VERSION, o.hellos[0]));
    }
  }

  lemma EnqueueKeeps(tx: Tx<DeviceMessage>, m: DeviceMessage)
    requires Faithful(DEVICE, tx) && (forall q :: q in tx.queue ==> Fits(q)) && Fits(m)
    ensures var e := Apply(DEVICE, tx, Enqueue(m));
      && Faithful(DEVICE, e) && (forall q :: q in e.queue ==> Fits(q))
      && e.wire == tx.wire && e.sent == tx.sent && e.unsent == tx.unsent
  {
    EnqueueKeepsFaithful(DEVICE, tx, m);
  }

  lemma OffersKeep(tx: Tx<DeviceMessage>, o: Outcome)
    requires Faithful(DEVICE, tx) && (forall q :: q in tx.queue ==> Fits(q))
    ensures var e := Offers(tx, o);
      && Faithful(DEVICE, e) && (forall q :: q in e.queue ==> Fits(q)) && e.wire == tx.wire && e.sent == tx.sent
  {
    OurMessagesFit(None);
    if o.request {
      EnqueueKeeps(tx, ShutdownRequested);
    } else if o.hellos != [] {
      OurMessagesFit(o.hellos[0]);
      EnqueueKeeps(tx, Hello(VERSION, o.hellos[0]));
    }
  }

  lemma EmptiedIsFaithful(tx: Tx<DeviceMessage>)
    requires Faithful(DEVICE, tx)
    ensures Faithful(DEVICE, tx.(queue := []))
  {
    SubsequenceOfPrefix(tx.sent, tx.queue, tx.log);
    assert tx.sent + [] == tx.sent;
  }

  lemma ResetKeeps(tx: Tx<DeviceMessage>)
    requires Faithful(DEVICE, tx)
    ensures var e := Apply(DEVICE, tx.(queue := []), Enqueue(Hello(VERSION, None)));
      && Faithful(DEVICE, e) && (forall q :: q in e.queue ==> Fits(q)) && e.wire == tx.wire && e.sent == tx.sent
  {
    EmptiedIsFaithful(tx);
    OurMessagesFit(None);
    EnqueueKeeps(tx.(queue := []), Hello(VERSION, None));
  }

  /** The device's steps leave the line to the daemon alone. */
  lemma DeviceStepMoves(w: Wired, a: Act)
    requires OfDevice(a) && w.world.stick == w.stick && Queues(w.world, w.tx)
    ensures var d, l := DeviceAfter(w, a), Next(w.world, a);
      && l.stick == d.stick && Queues(l, d.tx)
      && l.toHost == w.world.toHost && l.host == w.world.host && l.handed == w.world.handed
  {
    if a.Reboot? {
      var l := w.world.(stick := Booted(a.now), queue := []);
      assert TurnRefinement.Said([]) == AllOk([]);
      EnqueueIsQueued(l, w.tx.(queue := []), Hello(VERSION, None));
    } else {
      var o := DeviceOutcome(w, a);
      OffersAreMoves(w.world, w.tx, o);
      if a.Take? && w.world.toStick != [] {
        OffersAreMoves(w.world.(toStick := w.world.toStick[1..]), w.tx, o);
      }
    }
  }

  lemma DeviceKeepsTied(w: Wired, h: Happening, over: nat, partial: seq<Byte>)
    requires Tied(w, over, partial) && h.DeviceActs? && Happens(w, h)
    ensures Tied(After(w, h), over, partial)
  {
    DeviceStepMoves(w, h.act);
    if h.act.Reboot? {
      ResetKeeps(w.tx);
    } else {
      OffersKeep(w.tx, DeviceOutcome(w, h.act));
    }
  }

  lemma LineGrows(lines: seq<Line>, more: seq<Line>, sent: seq<DeviceMessage>, m: DeviceMessage, over: nat)
    requires over <= |sent| && TurnRefinement.Said(lines) == AllOk(sent[over..])
    requires TurnRefinement.Said(more) == TurnRefinement.Said(lines) + [Ok(m)]
    ensures TurnRefinement.Said(more) == AllOk((sent + [m])[over..])
    ensures (sent + [m])[..over] == sent[..over]
  {
    assert (sent + [m])[over..] == sent[over..] + [m];
  }

  lemma LoadKeeps(tx: Tx<DeviceMessage>)
    requires Faithful(DEVICE, tx) && (forall q :: q in tx.queue ==> Fits(q))
    ensures var e := Loaded(DEVICE, tx); var starts := tx.unsent == [] && tx.queue != [];
      && Faithful(DEVICE, e) && (forall q :: q in e.queue ==> Fits(q)) && tx.wire == e.wire
      && e.queue == (if starts then tx.queue[1..] else tx.queue)
      && e.sent == (if starts then tx.sent + [tx.queue[0]] else tx.sent)
  {
    LoadKeepsFaithful(DEVICE, tx);
    if tx.unsent == [] && tx.queue != [] {
      assert tx.queue[0] in tx.queue;
    }
  }

  lemma PollKeeps(tx: Tx<DeviceMessage>, accepted: nat)
    requires Faithful(DEVICE, tx) && (forall q :: q in tx.queue ==> Fits(q))
    ensures var e := Apply(DEVICE, tx, Poll(accepted)); var starts := tx.unsent == [] && tx.queue != [];
      && Faithful(DEVICE, e) && (forall q :: q in e.queue ==> Fits(q)) && tx.wire <= e.wire
      && e.queue == (if starts then tx.queue[1..] else tx.queue)
      && e.sent == (if starts then tx.sent + [tx.queue[0]] else tx.sent)
  {
    LoadKeeps(tx);
    WriteKeepsFaithful(DEVICE, Loaded(DEVICE, tx), accepted);
  }

  /** More bytes behind the place of the port, and perhaps one more frame begun. */
  lemma LineStays(w: Wired, e: Wired, over: nat, partial: seq<Byte>)
    requires LineTied(w, over, partial) && e.at == w.at && e.input == w.input && e.host == w.host
    requires w.tx.wire <= e.tx.wire && over <= |e.tx.sent| && e.tx.sent[..over] == w.tx.sent[..over]
    requires TurnRefinement.Said(e.world.toHost) == AllOk(e.tx.sent[over..])
    ensures LineTied(e, over, partial)
  {
    assert e.tx.wire[..w.at] == w.tx.wire[..w.at];
  }

  /** A poll that starts no frame is no step. */
  lemma QuietPollKeepsTied(w: Wired, h: Happening, over: nat, partial: seq<Byte>)
    requires Tied(w, over, partial) && h.Polls? && !(w.tx.unsent == [] && w.tx.queue != [])
    ensures Tied(After(w, h), over, partial)
  {
    PollKeeps(w.tx, h.accepted);
    LineStays(w, After(w, h), over, partial);
  }

  lemma StartingIsEmit(w: Wired, accepted: nat)
    requires Queues(w.world, w.tx) && w.tx.unsent == [] && w.tx.queue != []
    ensures var l, tx := Next(w.world, Emit), Apply(DEVICE, w.tx, Poll(accepted));
      && Queues(l, tx)
      && TurnRefinement.Said(l.toHost) == TurnRefinement.Said(w.world.toHost) + [Ok(w.tx.queue[0])]
      && l.stick == w.world.stick && l.host == w.world.host && l.handed == w.world.handed
  {
    LoadIsEmit(w.world, w.tx);
    assert |w.world.queue| == |TurnRefinement.Said(w.world.queue)| == |w.tx.queue|;
  }

  lemma StartingPollKeepsTied(w: Wired, h: Happening, over: nat, partial: seq<Byte>)
    requires Tied(w, over, partial) && h.Polls? && w.tx.unsent == [] && w.tx.queue != []
    ensures Tied(After(w, h), over, partial)
  {
    PollKeeps(w.tx, h.accepted);
    StartingIsEmit(w, h.accepted);
    LineGrows(w.world.toHost, After(w, h).world.toHost, w.tx.sent, w.tx.queue[0], over);
    LineStays(w, After(w, h), over, partial);
  }

  /** What the daemon makes of a message is what the link's step makes of its line. */
  lemma ReadIsAnswer(l: World, m: DeviceMessage)
    requires l.host.open && l.toHost != [] && Decoded(l.toHost[0]) == Ok(m)
    ensures var r := Next(l, Read);
      var (h, handled) := Answered(l.host, |l.handed|, if l.host.synchronized then [Ok(m)] else []);
      && r.host == h.(synchronized := true) && |r.handed| == handled
      && r.stick == l.stick && r.queue == l.queue && r.toHost == l.toHost[1..]
  {
  }

  /** Where the line is once its next byte is taken. */
  function OverAfter(w: Wired, over: nat): nat
    requires w.at < |w.tx.wire|
  {
    if w.tx.wire[w.at] == 0 then over + 1 else over
  }

  function PartialAfter(w: Wired, partial: seq<Byte>): seq<Byte>
    requires w.at < |w.tx.wire|
  {
    if w.tx.wire[w.at] == 0 then [] else partial + [w.tx.wire[w.at]]
  }

  /** The next byte is taken, and with a delimiter the next line. */
  lemma LineMovesOn(w: Wired, over: nat, partial: seq<Byte>, e: Wired)
    requires Faithful(DEVICE, w.tx) && LineTied(w, over, partial) && w.at < |w.tx.wire|
    requires e.at == w.at + 1 && e.tx == w.tx
    requires if w.tx.wire[w.at] == 0 then w.world.toHost != [] && e.world.toHost == w.world.toHost[1..]
             else e.world.toHost == w.world.toHost
    requires e.host.open && e.input.synchronized ==> e.input.decoder == DecoderState(PartialAfter(w, partial), false)
    ensures LineTied(e, OverAfter(w, over), PartialAfter(w, partial))
  {
    NextByte(w, over, partial);
    if w.tx.wire[w.at] == 0 {
      LinesBehind(w.world.toHost, w.tx.sent, over);
    }
  }

  lemma ReadKeepsTied(w: Wired, over: nat, partial: seq<Byte>)
    requires Tied(w, over, partial) && Happens(w, ReadsByte)
    ensures Tied(After(w, ReadsByte), OverAfter(w, over), PartialAfter(w, partial))
  {
    NextByte(w, over, partial);
    var byte, m := w.tx.wire[w.at], w.tx.sent[over];
    ByteYields(w.input, Body(m), m, partial, byte);
    if byte == 0 {
      LinesBehind(w.world.toHost, w.tx.sent, over);
      ReadIsAnswer(w.world, m);
    }
    LineMovesOn(w, over, partial, After(w, ReadsByte));
  }

  lemma LossKeepsTied(w: Wired, over: nat, partial: seq<Byte>)
    requires Tied(w, over, partial) && Happens(w, LosesByte)
    ensures Tied(After(w, LosesByte), OverAfter(w, over), PartialAfter(w, partial))
  {
    NextByte(w, over, partial);
    if w.tx.wire[w.at] == 0 {
      LinesBehind(w.world.toHost, w.tx.sent, over);
      LosingIsSkipping(w.world);
    }
    LineMovesOn(w, over, partial, After(w, LosesByte));
  }

  lemma LosingIsSkipping(l: World)
    requires l.toHost != []
    ensures Next(l, LoseToHost(0)) == l.(toHost := l.toHost[1..])
  {
    assert Without(l.toHost, 0) == l.toHost[1..];
  }

  lemma HostStepMoves(w: Wired, a: Act)
    requires (OfHost(a) || a.LoseToStick? || a.BreakToStick?) && w.world.host == w.host
    ensures var l, e := Next(w.world, a), HostAfter(w, a);
      && l.stick == w.world.stick && l.queue == w.world.queue && l.toHost == w.world.toHost
      && l.handed == w.world.handed && l.host == e.host
      && e == w.(host := e.host, input := e.input)
      && (e.input == w.input || e.input == InputState(false, FRESH))
      && (e.host.open ==> e.input.synchronized == e.host.synchronized
                          || (w.host.open && e.host == w.host && e.input == w.input))
      && (e.host.open && e.input.synchronized ==> w.host.open && e.input == w.input)
  {
  }

  lemma HostKeepsTied(w: Wired, h: Happening, over: nat, partial: seq<Byte>)
    requires Tied(w, over, partial) && (h.HostActs? || h.LineMoves?) && Happens(w, h)
    ensures Tied(After(w, h), over, partial)
  {
    HostStepMoves(w, h.act);
  }

  lemma AfterKeepsTied(w: Wired, h: Happening, over: nat, partial: seq<Byte>) returns (over': nat, partial': seq<Byte>)
    requires Tied(w, over, partial)
    ensures Tied(After(w, h), over', partial')
  {
    over', partial' := over, partial;
    if Happens(w, h) {
      match h
      case DeviceActs(_) => DeviceKeepsTied(w, h, over, partial);
      case Polls(_) =>
        if w.tx.unsent == [] && w.tx.queue != [] {
          StartingPollKeepsTied(w, h, over, partial);
        } else {
          QuietPollKeepsTied(w, h, over, partial);
        }
      case ReadsByte =>
        ReadKeepsTied(w, over, partial);
        over', partial' := OverAfter(w, over), PartialAfter(w, partial);
      case LosesByte =>
        LossKeepsTied(w, over, partial);
        over', partial' := OverAfter(w, over), PartialAfter(w, partial);
      case HostActs(_) => HostKeepsTied(w, h, over, partial);
      case LineMoves(_) => HostKeepsTied(w, h, over, partial);
    }
  }

  lemma FirstHelloIsFaithful()
    ensures var tx := Apply(DEVICE, Tx([], [], [], [], []), Enqueue(Hello(VERSION, None)));
      && Faithful(DEVICE, tx) && (forall q :: q in tx.queue ==> Fits(q))
      && tx.queue == [Hello(VERSION, None)] && tx.wire == [] && tx.sent == []
  {
    TransmitIsFaithful(DEVICE, []);
    OurMessagesFit(None);
    EnqueueKeeps(Run(DEVICE, Tx([], [], [], [], []), []), Hello(VERSION, None));
  }

  lemma StartSaysHello(nonce: Nonce, start: int)
    ensures var l := Start(nonce, start);
      && TurnRefinement.Said(l.queue) == [Ok(Hello(VERSION, None))] && l.toHost == [] && l.handed == []
      && l.stick == Booted(start) && l.host == Session(false, nonce, false, false)
  {
  }

  lemma BegunIsTied(nonce: Nonce, start: int)
    ensures Tied(Begun(nonce, start), 0, [])
  {
    FirstHelloIsFaithful();
    StartSaysHello(nonce, start);
    assert AllOk([Hello(VERSION, None)]) == [Ok(Hello(VERSION, None))];
    assert TurnRefinement.Said([]) == AllOk([]);
  }

  /** Every run of bytes is a run of the link: messages offered, frames written as far as the
      peripheral takes them, bytes lost while nobody listens, the port opened at any byte, and
      bytes read one by one through the decoder. */
  lemma {:induction false} BytesAreALinkRun(nonce: Nonce, start: int, hs: seq<Happening>)
    returns (acts: seq<Act>, over: nat, partial: seq<Byte>)
    ensures var w := Happened(Begun(nonce, start), hs);
      w.world == Exec(Start(nonce, start), acts) && Tied(w, over, partial)
    decreases |hs|
  {
    if hs == [] {
      acts, over, partial := [], 0, [];
      BegunIsTied(nonce, start);
    } else {
      var init, h := hs[..|hs| - 1], hs[|hs| - 1];
      acts, over, partial := BytesAreALinkRun(nonce, start, init);
      var w := Happened(Begun(nonce, start), init);
      over, partial := AfterKeepsTied(w, h, over, partial);
      if Happens(w, h) && ActOf(w, h).Some? {
        ExecAppend(Start(nonce, start), acts, ActOf(w, h).value);
        acts := acts + [ActOf(w, h).value];
      }
    }
  }

  /** No replay, from the bytes: over every such run the requests that the daemon decodes from the
      line and handles are, one for one, requests that the device queued while connected, with
      the nonce of the port session they are handled in as its session and during that opening
      of the port; in order, and none twice. And while the daemon holds the handshake, the
      device's session is its nonce or none. */
  lemma BytesNeverReplay(nonce: Nonce, start: int, hs: seq<Happening>)
    ensures var w := Happened(Begun(nonce, start), hs); var handed := w.world.handed;
      && |handed| == w.handled
      && (forall i :: 0 <= i < |handed| ==> Timely(handed[i].origin, handed[i].nonce, handed[i].opening))
      && (forall i, k :: 0 <= i < k < |handed| ==> handed[i].origin.id < handed[k].origin.id)
      && (w.host.established ==> w.stick.session == None || w.stick.session == Some(w.host.nonce))
  {
    var acts, over, partial := BytesAreALinkRun(nonce, start, hs);
    NoReplay(nonce, start, acts);
    Agreement(nonce, start, acts);
  }
}
