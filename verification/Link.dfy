/** The link as a whole: the daemon's handshake, the device loop, the transmit queue and the
    two byte directions between them, with device resets, port reopenings, lost frames and
    damaged frames. The theorems are about every run of this system. */
module Link {
  import opened Common
  import opened Postcard
  import opened Protocol
  import opened Stick
  import opened UsbTransmit

  /** The daemon's side of the handshake. The nonce is picked anew at every opening. */
  datatype Session = Session(open: bool, nonce: Nonce, established: bool, synchronized: bool)

  /** How the daemon's handshake reacts to one decoded frame. */
  function OnFrame(h: Session, received: Result<DeviceMessage>): Session
  {
    match received
    case Ok(Hello(_, acknowledged)) => h.(established := acknowledged == Some(h.nonce))
    case _ => h
  }

  predicate HandsOver(h: Session, received: Result<DeviceMessage>) {
    h.established && received == Ok(ShutdownRequested)
  }

  /** Where a message was queued: history, which no step of the system looks at. */
  datatype Origin = Origin(mode: Mode, session: Option<Nonce>, opening: nat, id: nat)

  datatype Sent = Sent(message: DeviceMessage, origin: Origin)

  /** A frame under way to the daemon. */
  datatype Line = Intact(sent: Sent) | Broken

  /** A request given to the shutdown handler, with the port session it was given in. */
  datatype Handover = Handover(origin: Origin, nonce: Nonce, opening: nat)

  datatype World = World(
    stick: State, queue: seq<Line>, toHost: seq<Line>, toStick: seq<HostFrame>,
    host: Session, opening: nat, used: set<Nonce>, nextId: nat, handed: seq<Handover>)

  const VERSION: Utf8 := []

  function Start(nonce: Nonce, now: int): World {
    Rebooted(World(Booted(now), [], [], [], Session(false, nonce, false, false), 0, {nonce}, 0, []), now)
  }

  datatype Act =
    | Reboot(now: int)                    // the device resets: its memory is gone, the line is not
    | Tick(now: int)
    | Take(now: int)                      // the device reads the next frame
    | Grow(now: int)                      // the device checks the age of the last update
    | Push(now: int, action: Option<ButtonAction>, held: Option<int>)
    | Time(now: int, usb: bool)
    | Emit                                // the next queued frame goes out
    | Open(nonce: Nonce)
    | Close                               // a port error, the end of the process, a handled request
    | Greet                               // the daemon writes its challenge
    | Tell(message: HostMessage)          // the daemon writes anything else
    | Read                                // the daemon reads the next frame
    | LoseToHost(i: nat)
    | BreakToHost(i: nat)
    | LoseToStick(i: nat)
    | BreakToStick(i: nat, foreign: bool)

  function Queued(l: World, message: DeviceMessage): World
  {
    var origin := Origin(l.stick.mode, l.stick.session, l.opening, l.nextId);
    l.(queue := Offered(l.queue, Intact(Sent(message, origin)), message.ShutdownRequested?), nextId := l.nextId + 1)
  }

  function Rebooted(l: World, now: int): World {
    Queued(l.(stick := Booted(now), queue := []), Hello(VERSION, None))
  }

  /** The device moves on and queues what it has to say. */
  function Moved(l: World, o: Outcome): World
  {
    var l' := l.(stick := o.state);
    if o.request then Queued(l', ShutdownRequested)
    else if o.hellos != [] then Queued(l', Hello(VERSION, o.hellos[0]))
    else l'
  }

  function Decoded(line: Line): Result<DeviceMessage> {
    match line
    case Intact(sent) => Ok(sent.message)
    case Broken => Err(Deserialize)
  }

  function ReadOne(l: World): World
    requires l.toHost != []
  {
    var line, h := l.toHost[0], l.host;
    var l' := l.(toHost := l.toHost[1..]);
    if !h.synchronized then
      l'.(host := h.(synchronized := true))
    else if HandsOver(h, Decoded(line)) then
      l'.(handed := l.handed + [Handover(line.sent.origin, h.nonce, l.opening)])
    else
      l'.(host := OnFrame(h, Decoded(line)))
  }

  function Without<T>(s: seq<T>, i: nat): seq<T> {
    if i < |s| then s[..i] + s[i + 1..] else s
  }

  /** One step; a step that is not possible now changes nothing. */
  function Next(l: World, a: Act): World
  {
    match a
    case Reboot(now) => Rebooted(l, now)
    case Tick(now) => Moved(l, HelloTick(l.stick, now))
    case Take(now) =>
      if l.toStick == [] then l
      else Moved(l.(toStick := l.toStick[1..]), Receive(l.stick, now, l.toStick[0]))
    case Grow(now) => l.(stick := Age(l.stick, now))
    case Push(now, action, held) => Moved(l, Press(l.stick, now, action, held))
    case Time(now, usb) => l.(stick := ShutdownTimers(l.stick, now, usb))
    case Emit => if l.queue == [] then l else l.(toHost := l.toHost + [l.queue[0]], queue := l.queue[1..])
    case Open(nonce) =>
      if l.host.open || nonce in l.used then l
      else l.(host := Session(true, nonce, false, false), opening := l.opening + 1, used := l.used + {nonce})
    case Close => l.(host := l.host.(open := false))
    case Greet =>
      if l.host.open && !l.host.established
      then l.(toStick := l.toStick + [Message(Challenge(VERSION, l.host.nonce))]) else l
    case Tell(message) =>
      if l.host.open && l.host.established && !message.Challenge?
      then l.(toStick := l.toStick + [Message(message)]) else l
    case Read => if l.host.open && l.toHost != [] then ReadOne(l) else l
    case LoseToHost(i) => l.(toHost := Without(l.toHost, i))
    case BreakToHost(i) => if i < |l.toHost| then l.(toHost := l.toHost[i := Broken]) else l
    case LoseToStick(i) => l.(toStick := Without(l.toStick, i))
    case BreakToStick(i, foreign) =>
      if i < |l.toStick| then l.(toStick := l.toStick[i := if foreign then ForeignVersion else Undecodable]) else l
  }

  function Exec(l: World, acts: seq<Act>): World
    decreases |acts|
  {
    if acts == [] then l else Next(Exec(l, acts[..|acts| - 1]), acts[|acts| - 1])
  }

  // ---------------------------------------------------------------- the invariant

  predicate IsRequest(line: Line) {
    line.Intact? && line.sent.message.ShutdownRequested?
  }

  predicate IsAck(line: Line, nonce: Nonce) {
    line.Intact? && line.sent.message.Hello? && line.sent.message.acknowledgedSession == Some(nonce)
  }

  predicate IsChallenge(frame: HostFrame) {
    frame.Message? && frame.message.Challenge?
  }

  /** Queued by a connected device, for this session, during this opening of the port. */
  predicate Timely(origin: Origin, nonce: Nonce, opening: nat) {
    origin.mode == Connected && origin.session == Some(nonce) && origin.opening == opening
  }

  /** Everything on its way to the daemon, oldest first. */
  function Pipe(l: World): seq<Line> {
    l.toHost + l.queue
  }

  ghost predicate Numbered(pipe: seq<Line>, from: nat, to: nat)
  {
    && (forall i :: 0 <= i < |pipe| && pipe[i].Intact? ==> from <= pipe[i].sent.origin.id < to)
    && (forall i, j :: 0 <= i < j < |pipe| && pipe[i].Intact? && pipe[j].Intact? ==>
          pipe[i].sent.origin.id < pipe[j].sent.origin.id)
  }

  /** Behind an acknowledgement of the daemon's nonce every request is timely. */
  ghost predicate TimelyBehindAck(pipe: seq<Line>, nonce: Nonce, opening: nat)
  {
    forall i, j :: 0 <= i < j < |pipe| && IsAck(pipe[i], nonce) && IsRequest(pipe[j]) ==>
      Timely(pipe[j].sent.origin, nonce, opening)
  }

  ghost predicate AllTimely(pipe: seq<Line>, nonce: Nonce, opening: nat) {
    forall i :: 0 <= i < |pipe| && IsRequest(pipe[i]) ==> Timely(pipe[i].sent.origin, nonce, opening)
  }

  ghost predicate HasAck(pipe: seq<Line>, nonce: Nonce) {
    exists i :: 0 <= i < |pipe| && IsAck(pipe[i], nonce)
  }

  /** The device has seen the challenge of the daemon's current opening. */
  ghost predicate Reached(l: World)
  {
    l.stick.session == Some(l.host.nonce) || l.host.established || HasAck(Pipe(l), l.host.nonce)
  }

  ghost predicate OnlyChallenges(frames: seq<HostFrame>, nonce: Nonce) {
    forall i :: 0 <= i < |frames| && IsChallenge(frames[i]) ==> frames[i].message.session == nonce
  }

  /** Challenges of older openings travel ahead of those of the current one. */
  ghost predicate OldChallengesFirst(frames: seq<HostFrame>, nonce: Nonce)
  {
    forall i, j :: 0 <= i < j < |frames| && IsChallenge(frames[i]) && IsChallenge(frames[j])
                   && frames[i].message.session == nonce
      ==> frames[j].message.session == nonce
  }

  /** What holds of everything on its way to the daemon. */
  ghost predicate PipeSound(pipe: seq<Line>, l: World, mark: nat)
  {
    && Numbered(pipe, mark, l.nextId)
    && TimelyBehindAck(pipe, l.host.nonce, l.opening)
    && (l.host.established ==> AllTimely(pipe, l.host.nonce, l.opening))
    && (forall i, n :: 0 <= i < |pipe| && IsAck(pipe[i], n) ==> n in l.used)
  }

  ghost predicate ChallengesSound(frames: seq<HostFrame>, l: World)
  {
    && OldChallengesFirst(frames, l.host.nonce)
    && (forall i :: 0 <= i < |frames| && IsChallenge(frames[i]) ==> frames[i].message.session in l.used)
  }

  /** Requests handed over so far: timely, in the order they were queued, each once. */
  ghost predicate HandedSound(handed: seq<Handover>, below: nat)
  {
    && (forall i :: 0 <= i < |handed| ==>
          Timely(handed[i].origin, handed[i].nonce, handed[i].opening) && handed[i].origin.id < below)
    && (forall i, j :: 0 <= i < j < |handed| ==> handed[i].origin.id < handed[j].origin.id)
  }

  /** `mark` separates the requests already handed over from everything under way. */
  ghost predicate Invariant(l: World, mark: nat)
  {
    && Sound(l.stick)
    && |l.queue| <= QUEUE_CAPACITY
    && l.host.nonce in l.used
    && (l.stick.session.Some? ==> l.stick.session.value in l.used)
    && ChallengesSound(l.toStick, l)
    && (Reached(l) ==>
          && OnlyChallenges(l.toStick, l.host.nonce)
          && (l.stick.session == None || l.stick.session == Some(l.host.nonce)))
    && mark <= l.nextId
    && PipeSound(Pipe(l), l, mark)
    && HandedSound(l.handed, mark)
  }

  // ---------------------------------------------------------------- frames lost and broken

  /** `q` is `p` with frames left out or broken; `at` says where each came from. */
  ghost predicate Thinned(q: seq<Line>, p: seq<Line>, at: seq<nat>)
  {
    && |at| == |q|
    && (forall i :: 0 <= i < |at| ==> at[i] < |p| && (q[i] == Broken || q[i] == p[at[i]]))
    && (forall i, j :: 0 <= i < j < |at| ==> at[i] < at[j])
  }

  lemma ThinnedPipe(q: seq<Line>, p: seq<Line>, at: seq<nat>, l: World, mark: nat)
    requires Thinned(q, p, at) && PipeSound(p, l, mark)
    ensures PipeSound(q, l, mark)
    ensures forall n :: HasAck(q, n) ==> HasAck(p, n)
  {
    forall n | HasAck(q, n)
      ensures HasAck(p, n)
    {
      var i :| 0 <= i < |q| && IsAck(q[i], n);
      assert IsAck(p[at[i]], n);
    }
  }

  function Positions(n: nat): (r: seq<nat>)
    ensures |r| == n && forall i :: 0 <= i < n ==> r[i] == i
  {
    seq(n, i => i)
  }

  /** Replacing what is under way by a thinned version keeps everything else as it is. */
  lemma ThinnedWorld(l: World, l': World, mark: nat, at: seq<nat>)
    requires Invariant(l, mark) && Thinned(Pipe(l'), Pipe(l), at)
    requires l' == l.(toHost := l'.toHost, queue := l'.queue) && |l'.queue| <= QUEUE_CAPACITY
    ensures Invariant(l', mark)
  {
    ThinnedPipe(Pipe(l'), Pipe(l), at, l, mark);
  }

  lemma WithoutIsThinned(p: seq<Line>, i: nat) returns (at: seq<nat>)
    requires i < |p|
    ensures Thinned(p[..i] + p[i + 1..], p, at)
  {
    at := Positions(|p|)[..i] + Positions(|p|)[i + 1..];
  }

  lemma LoseToHostStep(l: World, mark: nat, i: nat)
    requires Invariant(l, mark)
    ensures Invariant(Next(l, LoseToHost(i)), mark)
  {
    if i < |l.toHost| {
      var at := WithoutIsThinned(Pipe(l), i);
      var l' := Next(l, LoseToHost(i));
      assert Pipe(l') == Pipe(l)[..i] + Pipe(l)[i + 1..];
      ThinnedWorld(l, l', mark, at);
    }
  }

  lemma BreakToHostStep(l: World, mark: nat, i: nat)
    requires Invariant(l, mark)
    ensures Invariant(Next(l, BreakToHost(i)), mark)
  {
    if i < |l.toHost| {
      var l' := Next(l, BreakToHost(i));
      assert Pipe(l') == Pipe(l)[i := Broken];
      ThinnedWorld(l, l', mark, Positions(|Pipe(l)|));
    }
  }

  /** Challenges keep their order when frames are lost, broken or read from the front. */
  lemma ThinnedChallenges(l: World, frames: seq<HostFrame>, at: seq<nat>)
    requires ChallengesSound(l.toStick, l)
    requires |at| == |frames| && forall i, j :: 0 <= i < j < |at| ==> at[i] < at[j]
    requires forall i :: 0 <= i < |at| ==>
      at[i] < |l.toStick| && (IsChallenge(frames[i]) ==> frames[i] == l.toStick[at[i]])
    ensures ChallengesSound(frames, l)
    ensures forall n :: OnlyChallenges(l.toStick, n) ==> OnlyChallenges(frames, n)
  {
  }

  lemma LoseToStickStep(l: World, mark: nat, i: nat)
    requires Invariant(l, mark)
    ensures Invariant(Next(l, LoseToStick(i)), mark)
  {
    if i < |l.toStick| {
      var at := Positions(|l.toStick|)[..i] + Positions(|l.toStick|)[i + 1..];
      ThinnedChallenges(l, Without(l.toStick, i), at);
    }
  }

  lemma BreakToStickStep(l: World, mark: nat, i: nat, foreign: bool)
    requires Invariant(l, mark)
    ensures Invariant(Next(l, BreakToStick(i, foreign)), mark)
  {
    if i < |l.toStick| {
      ThinnedChallenges(l, Next(l, BreakToStick(i, foreign)).toStick, Positions(|l.toStick|));
    }
  }

  // ---------------------------------------------------------------- the device

  /** What the device queues is its own session's acknowledgement, or a request while connected. */
  predicate Proper(stick: State, message: DeviceMessage) {
    message == Hello(VERSION, stick.session) || (message == ShutdownRequested && stick.mode == Connected)
  }

  lemma AppendedPipe(pipe: seq<Line>, l: World, mark: nat, message: DeviceMessage)
    requires PipeSound(pipe, l, mark) && mark <= l.nextId && Proper(l.stick, message)
    requires Sound(l.stick) && (l.stick.session.Some? ==> l.stick.session.value in l.used)
    requires l.host.established || HasAck(pipe, l.host.nonce) ==>
      l.stick.session == None || l.stick.session == Some(l.host.nonce)
    ensures var x := Intact(Sent(message, Origin(l.stick.mode, l.stick.session, l.opening, l.nextId)));
      PipeSound(pipe + [x], l.(nextId := l.nextId + 1), mark)
  {
    var x := Intact(Sent(message, Origin(l.stick.mode, l.stick.session, l.opening, l.nextId)));
    var q := pipe + [x];
    forall i, j | 0 <= i < j < |q| && IsAck(q[i], l.host.nonce) && IsRequest(q[j])
      ensures Timely(q[j].sent.origin, l.host.nonce, l.opening)
    {
      if j == |pipe| {
        assert IsAck(pipe[i], l.host.nonce);
      }
    }
  }

  lemma AckIsOldOrLast(pipe: seq<Line>, last: Line, nonce: Nonce)
    requires HasAck(pipe + [last], nonce)
    ensures HasAck(pipe, nonce) || IsAck(last, nonce)
  {
    var i :| 0 <= i < |pipe| + 1 && IsAck((pipe + [last])[i], nonce);
    if i < |pipe| {
      assert IsAck(pipe[i], nonce);
    }
  }

  /** `q` is what the pipe holds when the message comes behind it. */
  lemma QueuedBehind(l: World, mark: nat, message: DeviceMessage, q: seq<Line>)
    requires Invariant(l, mark) && Proper(l.stick, message) && |Queued(l, message).queue| <= QUEUE_CAPACITY
    requires PipeSound(q, l, mark) && (HasAck(q, l.host.nonce) ==> HasAck(Pipe(l), l.host.nonce))
    requires Pipe(Queued(l, message)) ==
             q + [Intact(Sent(message, Origin(l.stick.mode, l.stick.session, l.opening, l.nextId)))]
    ensures Invariant(Queued(l, message), mark)
  {
    var l' := Queued(l, message);
    AppendedPipe(q, l, mark, message);
    if HasAck(Pipe(l'), l.host.nonce) {
      AckIsOldOrLast(q, Pipe(l')[|q|], l.host.nonce);
    }
    assert Reached(l') ==> Reached(l);
  }

  lemma QueuedStep(l: World, mark: nat, message: DeviceMessage)
    requires Invariant(l, mark) && Proper(l.stick, message)
    ensures Invariant(Queued(l, message), mark)
  {
    var l', p := Queued(l, message), Pipe(l);
    var x := Intact(Sent(message, Origin(l.stick.mode, l.stick.session, l.opening, l.nextId)));
    if |l.queue| < QUEUE_CAPACITY {
      assert Pipe(l') == p + [x];
      QueuedBehind(l, mark, message, p);
    } else if message.ShutdownRequested? {
      var at := WithoutIsThinned(p, |l.toHost|);
      var q := p[..|l.toHost|] + p[|l.toHost| + 1..];
      ThinnedPipe(q, p, at, l, mark);
      assert Pipe(l') == q + [x];
      QueuedBehind(l, mark, message, q);
    }
  }

  /** The device changes, its session does not, or only by being given up. */
  lemma StickStep(l: World, mark: nat, stick: State)
    requires Invariant(l, mark) && Sound(stick)
    requires stick.session == l.stick.session || stick.session == None
    ensures Invariant(l.(stick := stick), mark)
  {
    assert Pipe(l.(stick := stick)) == Pipe(l);
  }

  lemma RebootStep(l: World, mark: nat, now: int)
    requires Invariant(l, mark)
    ensures Invariant(Rebooted(l, now), mark)
  {
    var l' := l.(queue := []);
    assert Pipe(l') == Pipe(l)[..|l.toHost|];
    ThinnedWorld(l, l', mark, Positions(|l.toHost|));
    StickStep(l', mark, Booted(now));
    QueuedStep(l'.(stick := Booted(now)), mark, Hello(VERSION, None));
  }

  lemma TickStep(l: World, mark: nat, now: int)
    requires Invariant(l, mark)
    ensures Invariant(Next(l, Tick(now)), mark)
  {
    var o := HelloTick(l.stick, now);
    StickStep(l, mark, o.state);
    if o.hellos != [] {
      QueuedStep(l.(stick := o.state), mark, Hello(VERSION, o.hellos[0]));
    }
  }

  lemma PushStep(l: World, mark: nat, now: int, action: Option<ButtonAction>, held: Option<int>)
    requires Invariant(l, mark)
    ensures Invariant(Next(l, Push(now, action, held)), mark)
  {
    PressKeepsSound(l.stick, now, action, held);
    var o := Press(l.stick, now, action, held);
    StickStep(l, mark, o.state);
    if o.request {
      QueuedStep(l.(stick := o.state), mark, ShutdownRequested);
    }
  }

  /** What one received frame does to the device's session. */
  lemma ReceiveEffect(s: State, now: int, frame: HostFrame)
    requires Sound(s)
    ensures var o := Receive(s, now, frame);
      && Sound(o.state) && !o.request
      && o.state.session == (if IsChallenge(frame) then Some(frame.message.session) else s.session)
      && o.hellos == (if IsChallenge(frame) then [o.state.session] else [])
  {
    if frame.Message? && !frame.message.Challenge? && s.session.Some? {
      SessionDataKeepsSound(s, now, frame.message);
    }
  }

  /** A challenge of the current opening leaves only such challenges behind it; an older one
      proves that the device has not yet seen the current one. */
  lemma TakeStep(l: World, mark: nat, now: int)
    requires Invariant(l, mark) && l.toStick != []
    ensures Invariant(Next(l, Take(now)), mark)
  {
    var frame := l.toStick[0];
    var o := Receive(l.stick, now, frame);
    ReceiveEffect(l.stick, now, frame);
    var rest := l.toStick[1..];
    var at := seq(|rest|, i => i + 1);
    ThinnedChallenges(l, rest, at);
    var l' := l.(toStick := rest, stick := o.state);
    assert Pipe(l') == Pipe(l);
    if IsChallenge(frame) {
      assert l.toStick[0] == frame;
      assert Invariant(l', mark);
      QueuedStep(l', mark, Hello(VERSION, o.hellos[0]));
    }
  }

  // ---------------------------------------------------------------- the daemon

  lemma OpenStep(l: World, mark: nat, nonce: Nonce)
    requires Invariant(l, mark) && !l.host.open && nonce !in l.used
    ensures Invariant(Next(l, Open(nonce)), mark)
  {
    var l' := Next(l, Open(nonce));
    assert Pipe(l') == Pipe(l);
    assert !HasAck(Pipe(l'), nonce);
  }

  lemma GreetStep(l: World, mark: nat)
    requires Invariant(l, mark)
    ensures Invariant(Next(l, Greet), mark)
  {
    assert Pipe(Next(l, Greet)) == Pipe(l);
  }

  lemma TellStep(l: World, mark: nat, message: HostMessage)
    requires Invariant(l, mark)
    ensures Invariant(Next(l, Tell(message)), mark)
  {
    assert Pipe(Next(l, Tell(message))) == Pipe(l);
  }

  lemma ReadStep(l: World, mark: nat) returns (mark': nat)
    requires Invariant(l, mark) && l.toHost != []
    ensures Invariant(ReadOne(l), mark')
  {
    mark' := mark;
    var p, line, h := Pipe(l), l.toHost[0], l.host;
    var l1 := l.(toHost := l.toHost[1..]);
    var q := p[1..];
    assert Pipe(l1) == q && p[0] == line;
    assert Thinned(q, p, seq(|q|, i => i + 1));
    ThinnedWorld(l, l1, mark, seq(|q|, i => i + 1));
    if h.synchronized {
      if HandsOver(h, Decoded(line)) {
        assert IsRequest(p[0]);
        mark' := line.sent.origin.id + 1;
        assert Numbered(q, mark', l.nextId);
      } else if line.Intact? && line.sent.message.Hello? {
        if IsAck(line, h.nonce) {
          assert HasAck(p, h.nonce);
          assert AllTimely(q, h.nonce, l.opening) by {
            forall j | 0 <= j < |q| && IsRequest(q[j])
              ensures Timely(q[j].sent.origin, h.nonce, l.opening)
            {
              assert p[j + 1] == q[j];
            }
          }
        }
      }
    }
  }

  lemma NextKeepsInvariant(l: World, mark: nat, a: Act) returns (mark': nat)
    requires Invariant(l, mark)
    ensures Invariant(Next(l, a), mark')
  {
    mark' := mark;
    match a
    case Reboot(now) => RebootStep(l, mark, now);
    case Tick(now) => TickStep(l, mark, now);
    case Take(now) => if l.toStick != [] { TakeStep(l, mark, now); }
    case Grow(now) => StickStep(l, mark, Age(l.stick, now));
    case Push(now, action, held) => PushStep(l, mark, now, action, held);
    case Time(now, usb) =>
      TimersTouchOnlyTheShutdownScreen(l.stick, now, usb);
      StickStep(l, mark, ShutdownTimers(l.stick, now, usb));
    case Emit =>
      if l.queue != [] {
        assert Pipe(Next(l, Emit)) == Pipe(l);
        ThinnedWorld(l, Next(l, Emit), mark, Positions(|Pipe(l)|));
      }
    case Open(nonce) => if !l.host.open && nonce !in l.used { OpenStep(l, mark, nonce); }
    case Close => assert Pipe(Next(l, Close)) == Pipe(l);
    case Greet => GreetStep(l, mark);
    case Tell(message) => TellStep(l, mark, message);
    case Read => if l.host.open && l.toHost != [] { mark' := ReadStep(l, mark); }
    case LoseToHost(i) => LoseToHostStep(l, mark, i);
    case BreakToHost(i) => BreakToHostStep(l, mark, i);
    case LoseToStick(i) => LoseToStickStep(l, mark, i);
    case BreakToStick(i, foreign) => BreakToStickStep(l, mark, i, foreign);
  }

  lemma {:induction false} ReachableIsInvariant(nonce: Nonce, start: int, acts: seq<Act>) returns (mark: nat)
    ensures Invariant(Exec(Start(nonce, start), acts), mark)
    decreases |acts|
  {
    if acts == [] {
      mark := 0;
      var off := World(Booted(start), [], [], [], Session(false, nonce, false, false), 0, {nonce}, 0, []);
      assert Pipe(off) == [];
      RebootStep(off, 0, start);
    } else {
      mark := ReachableIsInvariant(nonce, start, acts[..|acts| - 1]);
      mark := NextKeepsInvariant(Exec(Start(nonce, start), acts[..|acts| - 1]), mark, acts[|acts| - 1]);
    }
  }

  // ---------------------------------------------------------------- the promises

  /** No replay: in every run, each request given to the shutdown handler was queued by a
      connected device whose session was the nonce of the port session it is handled in,
      during that same opening of the port; requests are handled in the order they were
      made, and none twice. */
  lemma NoReplay(nonce: Nonce, start: int, acts: seq<Act>)
    ensures var handed := Exec(Start(nonce, start), acts).handed;
      && (forall i :: 0 <= i < |handed| ==>
            && handed[i].origin.mode == Connected
            && handed[i].origin.session == Some(handed[i].nonce)
            && handed[i].origin.opening == handed[i].opening)
      && (forall i, j :: 0 <= i < j < |handed| ==> handed[i].origin.id < handed[j].origin.id)
  {
    var mark := ReachableIsInvariant(nonce, start, acts);
  }

  /** Agreement: while the daemon holds the handshake for its nonce, the device's session is
      that nonce or none at all, never another one, and nothing under way can change that. */
  lemma Agreement(nonce: Nonce, start: int, acts: seq<Act>)
    ensures var l := Exec(Start(nonce, start), acts);
      l.host.established ==>
        && (l.stick.session == None || l.stick.session == Some(l.host.nonce))
        && OnlyChallenges(l.toStick, l.host.nonce)
  {
    var mark := ReachableIsInvariant(nonce, start, acts);
  }

  lemma ExecAppend(l: World, acts: seq<Act>, a: Act)
    ensures Exec(l, acts + [a]) == Next(Exec(l, acts), a)
  {
    assert (acts + [a])[..|acts|] == acts;
  }

  lemma {:induction false} ExecConcat(l: World, a: seq<Act>, b: seq<Act>)
    ensures Exec(l, a + b) == Exec(Exec(l, a), b)
    decreases |b|
  {
    if b == [] {
      assert a + b == a;
    } else {
      assert (a + b)[..|a + b| - 1] == a + b[..|b| - 1];
      ExecConcat(l, a, b[..|b| - 1]);
    }
  }

  lemma OneStep(l: World, a: Act, rest: seq<Act>)
    ensures Exec(l, [a] + rest) == Exec(Next(l, a), rest)
  {
    assert [a][..0] == [];
    ExecConcat(l, [a], rest);
  }

  lemma FiveActs(l: World, a: Act, b: Act, c: Act, d: Act, e: Act)
    ensures Exec(l, [a, b, c, d, e]) == Next(Next(Next(Next(Next(l, a), b), c), d), e)
  {
    assert [a] == [] + [a] && [a, b] == [a] + [b] && [a, b, c] == [a, b] + [c];
    assert [a, b, c, d] == [a, b, c] + [d] && [a, b, c, d, e] == [a, b, c, d] + [e];
    ExecAppend(l, [], a);
    ExecAppend(l, [a], b);
    ExecAppend(l, [a, b], c);
    ExecAppend(l, [a, b, c], d);
    ExecAppend(l, [a, b, c, d], e);
  }
}
