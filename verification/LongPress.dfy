/** A long press of the button: exactly when its request reaches the shutdown handler, and exactly
    when the device is still connected by then. */
module LongPresses {
  import opened Common
  import opened Protocol
  import opened Stick
  import opened UsbTransmit
  import opened Link
  import opened Recovery

  // ---------------------------------------------------------------- whether the request is handed over

  /** What is ahead of a request that is queued now; a full queue gives its oldest entry up. */
  function Ahead(l: World): seq<Line> {
    l.toHost + if |l.queue| < QUEUE_CAPACITY then l.queue else l.queue[1..]
  }

  /** The request of a press made now, as it is handed over. */
  function Expected(l: World): Handover {
    Handover(Origin(Connected, l.stick.session, l.opening, l.nextId), l.host.nonce, l.opening)
  }

  lemma PushQueues(l: World, now: int, held: Option<int>)
    requires l.stick.mode == Connected && |l.queue| <= QUEUE_CAPACITY
    ensures var p := Next(l, Push(now, Some(LongPress), held));
      && p == l.(stick := p.stick, queue := p.queue, nextId := l.nextId + 1)
      && p.stick == l.stick.(lastClick := None, animating := false)
      && Pipe(p) == Ahead(l) + [Intact(Sent(ShutdownRequested, Expected(l).origin))]
  {
  }

  /** Numbers of requests that are handed over are numbers of these lines. */
  lemma {:induction false} HandedAreEarlier(established: bool, nonce: Nonce, opening: nat, lines: seq<Line>, below: nat)
    requires forall i :: 0 <= i < |lines| && IsRequest(lines[i]) ==> lines[i].sent.origin.id < below
    ensures forall k :: 0 <= k < |HandedIn(established, nonce, opening, lines)| ==>
      HandedIn(established, nonce, opening, lines)[k].origin.id < below
  {
    if lines != [] {
      HandedAreEarlier(established, nonce, opening, lines[..|lines| - 1], below);
    }
  }

  lemma AheadIsEarlier(l: World, mark: nat)
    requires Invariant(l, mark)
    ensures forall i :: 0 <= i < |Ahead(l)| && IsRequest(Ahead(l)[i]) ==> Ahead(l)[i].sent.origin.id < l.nextId
  {
    forall i | 0 <= i < |Ahead(l)|
      ensures Ahead(l)[i] in Pipe(l)
    {
      if i < |l.toHost| || |l.queue| < QUEUE_CAPACITY {
        assert Ahead(l)[i] == Pipe(l)[i];
      } else {
        assert Ahead(l)[i] == Pipe(l)[i + 1];
      }
    }
  }

  /** The handshake that stands ahead of the request is one of the device's session. */
  lemma StandsForItsSession(l: World, mark: nat)
    requires Invariant(l, mark) && l.stick.mode == Connected
    requires EstablishedAfter(l.host.established, l.host.nonce, Ahead(l))
    ensures l.stick.session == Some(l.host.nonce)
  {
    EstablishedByAck(l.host.established, l.host.nonce, Ahead(l));
    if !l.host.established {
      var i :| 0 <= i < |Ahead(l)| && IsAck(Ahead(l)[i], l.host.nonce);
      var k := if i < |l.toHost| || |l.queue| < QUEUE_CAPACITY then i else i + 1;
      assert IsAck(Pipe(l)[k], l.host.nonce);
    }
    assert Reached(l);
  }

  lemma RequestIsReadLast(l: World, lines: seq<Line>, origin: Origin)
    ensures var h, more := l.host, lines + [Intact(Sent(ShutdownRequested, origin))];
      && EstablishedAfter(h.established, h.nonce, more) == EstablishedAfter(h.established, h.nonce, lines)
      && HandedIn(h.established, h.nonce, l.opening, more)
         == HandedIn(h.established, h.nonce, l.opening, lines)
            + if EstablishedAfter(h.established, h.nonce, lines)
              then [Handover(origin, h.nonce, l.opening)] else []
  {
    var more := lines + [Intact(Sent(ShutdownRequested, origin))];
    assert more[..|more| - 1] == lines;
  }

  /** A connected device's long press, from every state of the invariant with the port open and
      synchronised, whatever is on the lines: once the queue is drained its request has been
      handed over if and only if the handshake stands behind the frames ahead of it, last of the
      handovers, from the daemon's own session. The age of the last update that the device checks
      meanwhile has no influence on that; it decides whether the device is still connected. */
  lemma PressIsHandled(l: World, mark: nat, now: int, held: Option<int>, grown: int)
    requires Invariant(l, mark) && Listening(l) && l.stick.mode == Connected
    ensures var h, end := l.host, Drained(Next(Next(l, Push(now, Some(LongPress), held)), Grow(grown)));
      var stands := EstablishedAfter(h.established, h.nonce, Ahead(l));
      && end.handed == l.handed + HandedIn(h.established, h.nonce, l.opening, Ahead(l))
                       + (if stands then [Expected(l)] else [])
      && (Expected(l) in end.handed <==> stands)
      && (stands ==> l.stick.session == Some(h.nonce))
      && end.host == h.(established := stands)
      && (ConnectedAs(end.stick, l.stick.session) <==> Fresh(l.stick.lastUpdate, grown))
  {
    PushQueues(l, now, held);
    var p := Next(l, Push(now, Some(LongPress), held));
    var g := Next(p, Grow(grown));
    assert Pipe(g) == Pipe(p);
    DrainedEffect(g);
    RequestIsReadLast(l, Ahead(l), Expected(l).origin);
    AheadIsEarlier(l, mark);
    HandedAreEarlier(l.host.established, l.host.nonce, l.opening, Ahead(l), l.nextId);
    if EstablishedAfter(l.host.established, l.host.nonce, Ahead(l)) {
      StandsForItsSession(l, mark);
    }
  }

  /** A request made now is handed over, and no other is before it. */
  predicate Delivers(l: World) {
    var h := l.host;
    EstablishedAfter(h.established, h.nonce, Ahead(l)) && HandedIn(h.established, h.nonce, l.opening, Ahead(l)) == []
  }

  /** The device's session is then the daemon's, and every challenge under way is for it. */
  lemma DeliversInSession(l: World, mark: nat)
    requires Invariant(l, mark) && l.stick.mode == Connected && Delivers(l)
    ensures l.stick.session == Some(l.host.nonce) && OnlyChallenges(l.toStick, l.host.nonce)
  {
    StandsForItsSession(l, mark);
    assert Reached(l);
  }

  lemma PressIsDelivered(l: World, mark: nat, now: int, held: Option<int>) returns (r: World)
    requires Invariant(l, mark) && Listening(l) && l.stick.mode == Connected && Delivers(l)
    ensures r == Drained(Next(l, Push(now, Some(LongPress), held)))
    ensures r.host == l.host.(established := true) && r.handed == l.handed + [Expected(l)]
    ensures r.toStick == l.toStick && r.stick.session == Some(l.host.nonce)
  {
    PushQueues(l, now, held);
    var p := Next(l, Push(now, Some(LongPress), held));
    r := Drained(p);
    DrainedEffect(p);
    RequestIsReadLast(l, Ahead(l), Expected(l).origin);
    StandsForItsSession(l, mark);
  }

  // ---------------------------------------------------------------- whether the device is still connected

  predicate ConnectedAs(s: State, session: Option<Nonce>) {
    s.mode == Connected && s.session == session
  }

  /** The last update is less than fifteen seconds old. */
  predicate Fresh(lastUpdate: Option<int>, now: int) {
    lastUpdate.Some? ==> now - lastUpdate.value < LINK_TIMEOUT
  }

  /** Frames that leave a connected device in its session. */
  predicate Harmless(frame: HostFrame) {
    match frame
    case Undecodable => true
    case ForeignVersion => false
    case Message(m) => m.Snapshot? || m.Display? || m.Network?
  }

  /** Steps that leave a connected device in its session. */
  predicate KeepsConnected(l: World, a: Act)
  {
    match a
    case Reboot(_) => false
    case Take(_) => l.toStick == [] || Harmless(l.toStick[0])
    case Grow(now) => Fresh(l.stick.lastUpdate, now)
    case _ => true
  }

  lemma TakeKeepsConnected(l: World, now: int)
    requires Sound(l.stick) && l.stick.mode == Connected && l.toStick != []
    ensures ConnectedAs(Next(l, Take(now)).stick, l.stick.session) <==> Harmless(l.toStick[0])
    ensures Sound(Next(l, Take(now)).stick)
  {
    ReceiveKeepsSound(l.stick, now, l.toStick[0]);
  }

  /** The steps of the device that are neither a reset nor a frame. */
  lemma DeviceKeepsConnected(l: World, a: Act)
    requires Sound(l.stick) && (l.stick.mode == Stale || l.stick.mode == Connected)
    requires a.Tick? || a.Grow? || a.Push? || a.Time?
    ensures var s := Next(l, a).stick;
      && Sound(s) && s.lastUpdate == l.stick.lastUpdate && (s.mode == Connected || s.mode == Stale)
      && (s.mode == Connected <==> l.stick.mode == Connected && KeepsConnected(l, a))
      && (s.mode == Connected ==> s.session == l.stick.session)
  {
    match a
    case Time(now, usb) => TimersTouchOnlyTheShutdownScreen(l.stick, now, usb);
    case Push(now, action, held) => PressKeepsSound(l.stick, now, action, held);
    case _ =>
  }

  lemma OthersLeaveTheDevice(l: World, a: Act)
    requires !a.Tick? && !a.Grow? && !a.Push? && !a.Time? && !a.Take? && !a.Reboot?
    ensures Next(l, a).stick == l.stick && KeepsConnected(l, a)
  {
  }

  lemma UndisturbedStep(l: World, a: Act)
    requires Sound(l.stick) && (l.stick.mode == Stale || l.stick.mode == Connected) && !a.Take? && !a.Reboot?
    ensures var s := Next(l, a).stick;
      && Sound(s) && s.lastUpdate == l.stick.lastUpdate && (s.mode == Connected || s.mode == Stale)
      && (s.mode == Connected <==> l.stick.mode == Connected && KeepsConnected(l, a))
      && (s.mode == Connected ==> s.session == l.stick.session)
  {
    if a.Tick? || a.Grow? || a.Push? || a.Time? {
      DeviceKeepsConnected(l, a);
    } else {
      OthersLeaveTheDevice(l, a);
    }
  }

  lemma StepKeepsConnected(l: World, a: Act)
    requires Sound(l.stick) && l.stick.mode == Connected
    ensures ConnectedAs(Next(l, a).stick, l.stick.session) <==> KeepsConnected(l, a)
    ensures KeepsConnected(l, a) ==> Sound(Next(l, a).stick)
  {
    if a.Take? && l.toStick != [] {
      TakeKeepsConnected(l, a.now);
    } else if !a.Take? && !a.Reboot? {
      UndisturbedStep(l, a);
    }
  }

  /** The device is connected in its session before and after each of these steps. */
  ghost predicate StaysConnected(l: World, acts: seq<Act>)
    decreases |acts|
  {
    && ConnectedAs(Exec(l, acts).stick, l.stick.session)
    && (acts == [] || StaysConnected(l, acts[..|acts| - 1]))
  }

  /** Each of these steps is one that keeps the device connected, in the state it is made in. */
  ghost predicate AllKeepConnected(l: World, acts: seq<Act>)
    decreases |acts|
  {
    acts == [] || (AllKeepConnected(l, acts[..|acts| - 1])
                   && KeepsConnected(Exec(l, acts[..|acts| - 1]), acts[|acts| - 1]))
  }

  /** Over every run a device stays connected in its session exactly if there is no reset, every
      frame it reads is harmless, and the last update is in time whenever it looks. */
  lemma {:induction false} ConnectedThroughout(l: World, acts: seq<Act>)
    requires Sound(l.stick) && l.stick.mode == Connected
    ensures StaysConnected(l, acts) <==> AllKeepConnected(l, acts)
    ensures StaysConnected(l, acts) ==>
      Sound(Exec(l, acts).stick) && ConnectedAs(Exec(l, acts).stick, l.stick.session)
    decreases |acts|
  {
    if acts != [] {
      var init, a := acts[..|acts| - 1], acts[|acts| - 1];
      ConnectedThroughout(l, init);
      if StaysConnected(l, init) {
        StepKeepsConnected(Exec(l, init), a);
      }
    }
  }

  /** No reset, and nothing read by the device. */
  ghost predicate Undisturbed(acts: seq<Act>) {
    forall k :: 0 <= k < |acts| ==> !acts[k].Take? && !acts[k].Reboot?
  }

  /** Whenever the device checks the age of this update, it is less than fifteen seconds old. */
  ghost predicate InTime(acts: seq<Act>, lastUpdate: Option<int>) {
    forall k :: 0 <= k < |acts| && acts[k].Grow? ==> Fresh(lastUpdate, acts[k].now)
  }

  /** Without resets and frames a connection that is lost is not regained: the age checks decide. */
  lemma {:induction false} ConnectedAtTheEnd(l: World, acts: seq<Act>)
    requires Sound(l.stick) && l.stick.mode == Connected && Undisturbed(acts)
    ensures ConnectedAs(Exec(l, acts).stick, l.stick.session) <==> InTime(acts, l.stick.lastUpdate)
    ensures var s := Exec(l, acts).stick; s.mode == Stale || (s.mode == Connected && s.lastUpdate == l.stick.lastUpdate)
    ensures Sound(Exec(l, acts).stick)
    decreases |acts|
  {
    if acts != [] {
      var init, a := acts[..|acts| - 1], acts[|acts| - 1];
      ConnectedAtTheEnd(l, init);
      assert InTime(acts, l.stick.lastUpdate)
        <==> InTime(init, l.stick.lastUpdate) && (a.Grow? ==> Fresh(l.stick.lastUpdate, a.now));
      UndisturbedStep(Exec(l, init), a);
    }
  }

  /** A run puts a request on the line and this request is at its front: the daemon takes it next. */
  ghost predicate AboutToHandOver(e: World, origin: Origin) {
    Listening(e) && e.host.established && e.toHost != [] && e.toHost[0] == Intact(Sent(ShutdownRequested, origin))
  }

  /** Over every run between a connected device's long press and the handover of its request: the
      request is handed over in the session and opening it was made in. The device is connected
      all that time if and only if there is no reset, every frame that it reads is harmless, and
      the last update is in time whenever it looks; if it is not reset and reads nothing, then it
      is still connected at the handover if and only if the ages it saw were below fifteen
      seconds. */
  lemma ConnectedWhenHandled(nonce: Nonce, start: int, before: seq<Act>, now: int, held: Option<int>,
                             between: seq<Act>)
    requires var l := Exec(Start(nonce, start), before); var p := Next(l, Push(now, Some(LongPress), held));
      l.stick.mode == Connected && AboutToHandOver(Exec(p, between), Expected(l).origin)
    ensures var l := Exec(Start(nonce, start), before); var p := Next(l, Push(now, Some(LongPress), held));
      var e := Exec(p, between); var r := Next(e, Read);
      && r.handed == e.handed + [Handover(Expected(l).origin, e.host.nonce, e.opening)]
      && l.stick.session == Some(e.host.nonce) && l.opening == e.opening
      && (StaysConnected(p, between) <==> AllKeepConnected(p, between))
      && (Undisturbed(between) ==>
            (ConnectedAs(r.stick, l.stick.session) <==> InTime(between, l.stick.lastUpdate)))
  {
    var l := Exec(Start(nonce, start), before);
    var mark := ReachableIsInvariant(nonce, start, before);
    PushQueues(l, now, held);
    var push := Push(now, Some(LongPress), held);
    var p := Next(l, push);
    ConnectedThroughout(p, between);
    if Undisturbed(between) {
      ConnectedAtTheEnd(p, between);
    }
    var acts := before + [push] + between;
    ExecAppend(Start(nonce, start), before, push);
    ExecConcat(Start(nonce, start), before + [push], between);
    HandoverIsTimely(nonce, start, acts, Expected(l).origin);
  }

  lemma HandoverIsTimely(nonce: Nonce, start: int, acts: seq<Act>, origin: Origin)
    requires AboutToHandOver(Exec(Start(nonce, start), acts), origin)
    ensures var e := Exec(Start(nonce, start), acts); var r := Next(e, Read);
      && r.handed == e.handed + [Handover(origin, e.host.nonce, e.opening)] && r.stick == e.stick
      && origin.session == Some(e.host.nonce) && origin.opening == e.opening
  {
    var e := Exec(Start(nonce, start), acts);
    NoReplay(nonce, start, acts + [Read]);
    ExecAppend(Start(nonce, start), acts, Read);
    assert Next(e, Read).handed[|e.handed|] == Handover(origin, e.host.nonce, e.opening);
  }

  // ---------------------------------------------------------------- presses in a quiet session

  /** From a quiet established link: an update, and then a long press. */
  function Pressed(l: World, snapshot: HealthSnapshot, now: int): World {
    Next(Next(Next(Next(l, Tell(Snapshot(snapshot))), Take(now)), Push(now, Some(LongPress), None)), Emit)
  }

  lemma PressedEffect(l: World, snapshot: HealthSnapshot, now: int)
    requires Quiet(l) && l.host.established && l.toStick == [] && l.stick.session.Some?
    ensures var p := Pressed(l, snapshot, now);
      && p.stick.mode == Connected && p.stick.session == l.stick.session && p.stick.lastUpdate == Some(now)
      && p.toHost == [Intact(Sent(ShutdownRequested, Origin(Connected, l.stick.session, l.opening, l.nextId)))]
      && p.queue == [] && p.toStick == [] && p.host == l.host && p.opening == l.opening && p.handed == l.handed
  {
    var a := Next(l, Tell(Snapshot(snapshot)));
    assert a == l.(toStick := [Message(Snapshot(snapshot))]);
    var b := Next(a, Take(now));
    assert b.stick == l.stick.(lastUpdate := Some(now), snapshot := Some(snapshot), mode := Connected);
    assert b == l.(stick := b.stick);
    var c := Next(b, Push(now, Some(LongPress), None));
    assert c.stick == b.stick.(lastClick := None, animating := false);
    assert |c.queue| == 1;
  }

  /** The request of a press is on the line. */
  ghost predicate Requested(l: World, p: World, now: int)
  {
    && p.toHost == [Intact(Sent(ShutdownRequested, Expected(l).origin))] && p.toStick == []
    && p.host == l.host && p.opening == l.opening && p.handed == l.handed
    && p.host.open && p.host.synchronized && p.host.established
    && p.stick.mode == Connected && p.stick.session.Some? && p.stick.lastUpdate == Some(now)
  }

  lemma PressedIsRequested(l: World, snapshot: HealthSnapshot, now: int)
    requires Quiet(l) && l.host.established && l.toStick == [] && l.stick.session == Some(l.host.nonce)
    ensures Requested(l, Pressed(l, snapshot, now), now)
  {
    PressedEffect(l, snapshot, now);
  }

  lemma RequestIsTaken(l: World, e: World)
    requires e.toHost == [Intact(Sent(ShutdownRequested, Expected(l).origin))]
    requires e.host == l.host && e.opening == l.opening && e.handed == l.handed
    requires l.host.open && l.host.synchronized && l.host.established
    ensures Next(e, Read).handed == l.handed + [Expected(l)] && Next(e, Read).stick == e.stick
  {
  }

  lemma BrokenUpdate(p: World, snapshot: HealthSnapshot, now: int)
    requires p.toStick == [] && p.host.open && p.host.established
    ensures Next(Next(Next(p, Tell(Snapshot(snapshot))), BreakToStick(0, true)), Take(now))
         == p.(stick := p.stick.(mode := Incompatible))
  {
    var told := Next(p, Tell(Snapshot(snapshot)));
    assert told.toStick == [Message(Snapshot(snapshot))];
    var broken := Next(told, BreakToStick(0, true));
    assert broken == p.(toStick := [ForeignVersion]);
    assert broken.toStick[1..] == [];
  }

  /** A foreign frame in between: an update that arrives broken. The last update is in time and the
      request is handed over, but the device shows an incompatible host. */
  lemma ForeignFrameInBetween(l: World, snapshot: HealthSnapshot, now: int)
    requires Quiet(l) && l.host.established && l.toStick == [] && l.stick.session == Some(l.host.nonce)
    ensures var broken := Next(Next(Pressed(l, snapshot, now), Tell(Snapshot(snapshot))), BreakToStick(0, true));
      var end := Next(Next(broken, Take(now)), Read);
      && end.handed == l.handed + [Expected(l)]
      && end.stick.mode == Incompatible && end.stick.lastUpdate == Some(now)
  {
    PressedIsRequested(l, snapshot, now);
    var p := Pressed(l, snapshot, now);
    BrokenUpdate(p, snapshot, now);
    RequestIsTaken(l, p.(stick := p.stick.(mode := Incompatible)));
  }

  /** A reset in between. */
  lemma ResetInBetween(l: World, snapshot: HealthSnapshot, now: int)
    requires Quiet(l) && l.host.established && l.toStick == [] && l.stick.session == Some(l.host.nonce)
    ensures var end := Next(Next(Pressed(l, snapshot, now), Reboot(now)), Read);
      end.handed == l.handed + [Expected(l)] && end.stick == Booted(now)
  {
    PressedIsRequested(l, snapshot, now);
    RequestIsTaken(l, Next(Pressed(l, snapshot, now), Reboot(now)));
  }

  /** A repeated challenge in between: the daemon challenges twice and is answered; the device is
      reset, takes the second challenge and an update, and its button is held. Its Hello of after
      the reset is still ahead of its answer: the daemon reads it, challenges again, reads the
      answer, and the device reads that challenge. */
  function ChallengedAgain(now: int, snapshot: HealthSnapshot): seq<Act> {
    GreetedTwice(now) + (ResetAndAnswered(now, snapshot) + (HeldAgain(now) + AskedAgain(now)))
  }

  function GreetedTwice(now: int): seq<Act> {
    [Open(1), Greet, Greet, Take(now), Emit]
  }

  function ResetAndAnswered(now: int, snapshot: HealthSnapshot): seq<Act> {
    [Emit, Reboot(now), Read, Read, Tell(Snapshot(snapshot))]
  }

  function HeldAgain(now: int): seq<Act> {
    [Take(now), Take(now), Push(now, Some(LongPress), None), Emit, Emit]
  }

  function AskedAgain(now: int): seq<Act> {
    [Emit, Read, Greet, Read, Take(now)]
  }

  /** A Hello that the device queued while waiting. */
  function Answer(session: Option<Nonce>, opening: nat, id: nat): Line {
    Intact(Sent(Hello(VERSION, session), Origin(Waiting, session, opening, id)))
  }

  const FIRST: Session := Session(true, 1, false, false)

  lemma TakesChallenge(l: World, now: int, nonce: Nonce)
    requires l.toStick != [] && l.toStick[0] == Message(Challenge(VERSION, nonce)) && |l.queue| < QUEUE_CAPACITY
    ensures Next(l, Take(now))
         == l.(toStick := l.toStick[1..], nextId := l.nextId + 1,
               stick := l.stick.(mode := Waiting, lastUpdate := None, session := Some(nonce)),
               queue := l.queue + [Answer(Some(nonce), l.opening, l.nextId)])
  {
  }

  lemma ReadsHello(l: World)
    requires l.host.open && l.host.synchronized && l.toHost != [] && l.toHost[0].Intact?
    requires l.toHost[0].sent.message.Hello?
    ensures Next(l, Read) == l.(toHost := l.toHost[1..],
                                host := l.host.(established := IsAck(l.toHost[0], l.host.nonce)))
  {
  }

  lemma OpensAndGreetsTwice(l: World)
    requires !l.host.open && 1 !in l.used && l.toStick == []
    ensures Next(Next(Next(l, Open(1)), Greet), Greet)
         == l.(host := FIRST, opening := l.opening + 1, used := l.used + {1},
               toStick := [Message(Challenge(VERSION, 1)), Message(Challenge(VERSION, 1))])
  {
    var greeted := Next(Next(l, Open(1)), Greet);
    assert greeted.toStick == [Message(Challenge(VERSION, 1))];
  }

  lemma StartsWithHello(now: int)
    ensures Start(0, now)
         == World(Booted(now), [Answer(None, 0, 0)], [], [], Session(false, 0, false, false), 0, {0}, 1, [])
  {
  }

  lemma GreetedTwiceEffect(l: World, now: int)
    requires l == World(Booted(now), [Answer(None, 0, 0)], [], [], Session(false, 0, false, false), 0, {0}, 1, [])
    ensures Exec(l, GreetedTwice(now))
         == World(Booted(now).(session := Some(1)), [Answer(Some(1), 1, 1)], [Answer(None, 0, 0)],
                  [Message(Challenge(VERSION, 1))], FIRST, 1, {0, 1}, 2, [])
  {
    FiveActs(l, Open(1), Greet, Greet, Take(now), Emit);
    OpensAndGreetsTwice(l);
    var greeted := Next(Next(Next(l, Open(1)), Greet), Greet);
    assert {0} + {1} == {0, 1};
    TakesChallenge(greeted, now, 1);
    assert Next(greeted, Take(now)).queue == [Answer(None, 0, 0), Answer(Some(1), 1, 1)];
  }

  lemma ResetAndAnsweredEffect(l: World, now: int, snapshot: HealthSnapshot)
    requires l.queue == [Answer(Some(1), 1, 1)] && l.toHost == [Answer(None, 0, 0)] && l.host == FIRST
    requires l.toStick == [Message(Challenge(VERSION, 1))] && l.opening == 1 && l.nextId == 2 && l.handed == []
    ensures Exec(l, ResetAndAnswered(now, snapshot))
         == World(Booted(now), [Answer(None, 1, 2)], [], [Message(Challenge(VERSION, 1)), Message(Snapshot(snapshot))],
                  Session(true, 1, true, true), 1, l.used, 3, [])
  {
    FiveActs(l, Emit, Reboot(now), Read, Read, Tell(Snapshot(snapshot)));
    var r := Next(Next(l, Emit), Reboot(now));
    assert r == World(Booted(now), [Answer(None, 1, 2)], [Answer(None, 0, 0), Answer(Some(1), 1, 1)], l.toStick,
                      FIRST, 1, l.used, 3, []);
  }

  lemma HeldAgainEffect(l: World, now: int, snapshot: HealthSnapshot)
    requires l.stick == Booted(now) && l.queue == [Answer(None, 1, 2)] && l.toHost == []
    requires l.toStick == [Message(Challenge(VERSION, 1)), Message(Snapshot(snapshot))]
    requires l.opening == 1 && l.nextId == 3
    ensures var c := Exec(l, HeldAgain(now));
      && c.toHost == [Answer(None, 1, 2), Answer(Some(1), 1, 3)]
      && c.queue == [Intact(Sent(ShutdownRequested, Origin(Connected, Some(1), 1, 4)))]
      && c.toStick == [] && c.host == l.host && c.stick.session == Some(1)
  {
    FiveActs(l, Take(now), Take(now), Push(now, Some(LongPress), None), Emit, Emit);
    TakesChallenge(l, now, 1);
    var t := Next(Next(l, Take(now)), Take(now));
    assert t.queue == [Answer(None, 1, 2), Answer(Some(1), 1, 3)] && t.stick.mode == Connected && t.toStick == [];
    PressedAgainEffect(t, now);
  }

  lemma PressedAgainEffect(t: World, now: int)
    requires t.queue == [Answer(None, 1, 2), Answer(Some(1), 1, 3)] && t.toHost == []
    requires t.stick.mode == Connected && t.stick.session == Some(1) && t.opening == 1 && t.nextId == 4
    ensures var c := Next(Next(Next(t, Push(now, Some(LongPress), None)), Emit), Emit);
      && c.toHost == [Answer(None, 1, 2), Answer(Some(1), 1, 3)]
      && c.queue == [Intact(Sent(ShutdownRequested, Origin(Connected, Some(1), 1, 4)))]
      && c.toStick == t.toStick && c.host == t.host && c.stick.session == Some(1)
  {
    var p := Next(t, Push(now, Some(LongPress), None));
    assert p.queue == t.queue + [Intact(Sent(ShutdownRequested, Origin(Connected, Some(1), 1, 4)))];
  }

  lemma AskedAgainEffect(c: World, now: int, request: Line)
    requires c.toHost == [Answer(None, 1, 2), Answer(Some(1), 1, 3)] && c.queue == [request] && c.toStick == []
    requires c.host == Session(true, 1, true, true) && c.stick.session == Some(1)
    ensures var e := Exec(c, AskedAgain(now));
      && e.toHost == [request] && e.host == Session(true, 1, true, true)
      && e.stick.mode == Waiting && e.stick.session == Some(1) && e.stick.lastUpdate == None
  {
    FiveActs(c, Emit, Read, Greet, Read, Take(now));
    var d := Next(c, Emit);
    ReadsHello(d);
    var r := Next(d, Read);
    assert r == c.(toHost := [Answer(Some(1), 1, 3), request], queue := [], host := FIRST.(synchronized := true));
    var g := Next(r, Greet);
    ReadsHello(g);
    TakesChallenge(Next(g, Read), now, 1);
  }

  /** The request is then handed over by the run's next step, from the session the device is in,
      but the device is waiting. */
  lemma RepeatedChallengeInBetween(now: int, snapshot: HealthSnapshot)
    ensures var e := Exec(Start(0, now), ChallengedAgain(now, snapshot));
      && AboutToHandOver(e, Origin(Connected, Some(1), 1, 4))
      && e.stick.mode == Waiting && e.stick.session == Some(1) && e.stick.lastUpdate == None
  {
    StartsWithHello(now);
    GreetedTwiceEffect(Start(0, now), now);
    var a := Exec(Start(0, now), GreetedTwice(now));
    ResetAndAnsweredEffect(a, now, snapshot);
    var b := Exec(a, ResetAndAnswered(now, snapshot));
    HeldAgainEffect(b, now, snapshot);
    var c := Exec(b, HeldAgain(now));
    AskedAgainEffect(c, now, Intact(Sent(ShutdownRequested, Origin(Connected, Some(1), 1, 4))));
    ExecConcat(Start(0, now), GreetedTwice(now), ResetAndAnswered(now, snapshot) + (HeldAgain(now) + AskedAgain(now)));
    ExecConcat(a, ResetAndAnswered(now, snapshot), HeldAgain(now) + AskedAgain(now));
    ExecConcat(b, HeldAgain(now), AskedAgain(now));
  }
}
