/** Recovery of the two loops themselves: turns one second apart, with the frames between them
    arriving, establish the handshake from every state with the port open. */
module LoopRecovery {
  import opened Common
  import opened Protocol
  import opened Link
  import opened Pagination
  import opened Joint
  import DaemonRefinement
  import Recovery
  import Stick
  import Daemon
  import TurnRefinement
  import UsbTransmit

  // ---------------------------------------------------------------- one turn of the daemon

  /** A turn in which nothing fails, no measurement is at hand, and a shutdown handler that is
      given a request goes on without a word. */
  function QuietInput(now: int): Daemon.Input {
    Daemon.Input(now, None, None, true, true, true, true, true, true, [], [], false)
  }

  /** Whether the handshake stands behind these frames. */
  function HeardEstablished(h: Session, frames: seq<Result<DeviceMessage>>): bool
    decreases |frames|
  {
    if frames == [] then h.established
    else if !h.synchronized then HeardEstablished(h.(synchronized := true), frames[1..])
    else HeardEstablished(OnFrame(h, frames[0]), frames[1..])
  }

  /** The daemon's session behind these frames. */
  function HeardSession(h: Session, frames: seq<Result<DeviceMessage>>): Session {
    h.(established := HeardEstablished(h, frames), synchronized := h.synchronized || frames != [])
  }

  lemma {:induction false} QuietReads(s: Daemon.Loop, now: int, frames: seq<Result<DeviceMessage>>, limit: int)
    requires s.nextHello <= limit && now <= limit
    ensures var r := Daemon.ReadPhase(s, now, frames, []);
      && r.ending == Daemon.Fine && r.written == [] && r.loop.session == HeardSession(s.session, frames)
      && r.loop.nextHello <= limit
    decreases |frames|
  {
    if frames != [] {
      if !s.session.synchronized {
        QuietReads(s.(session := s.session.(synchronized := true)), now, frames[1..], limit);
      } else if HandsOver(s.session, frames[0]) {
        QuietReads(s, now, frames[1..], limit);
      } else {
        QuietReads(Daemon.Heard(s, now, frames[0]), now, frames[1..], limit);
      }
    }
  }

  /** What a quiet turn writes: a challenge, both manifests or nothing. */
  function QuietWrites(s: Daemon.Loop, now: int): seq<HostMessage> {
    if !s.session.established then
      if now >= s.nextHello then [Challenge(VERSION, s.session.nonce)] else []
    else if s.manifestPending then [Display(s.display), Network(s.network)]
    else []
  }

  lemma QuietWritePhases(config: Config, interval: nat, s: Daemon.Loop, i: Daemon.Input)
    requires i == QuietInput(i.now).(frames := i.frames) && s.nextHello <= i.now + Daemon.HELLO_PERIOD
    ensures var w := Daemon.WritePhases(config, interval, s, i);
      && w.ending == Daemon.Fine && w.written == QuietWrites(s, i.now) && w.loop.session == s.session
      && w.loop.nextHello <= i.now + Daemon.HELLO_PERIOD
  {
    var hello := Daemon.HelloPhase(s, i);
    var manifest := Daemon.ManifestPhase(hello.loop, i);
    assert hello.written + manifest.written + [] == QuietWrites(s, i.now);
  }

  lemma QuietTurn(config: Config, interval: nat, s: Daemon.Loop, i: Daemon.Input)
    requires i == QuietInput(i.now).(frames := i.frames) && s.session.open
    requires s.nextHello <= i.now + Daemon.HELLO_PERIOD
    ensures var t := Daemon.Turn(config, interval, s, i);
      && t.ending == Daemon.Fine && t.written == QuietWrites(s, i.now)
      && t.loop.session == HeardSession(s.session, i.frames) && t.loop.nextHello <= i.now + Daemon.HELLO_PERIOD
    ensures DaemonRefinement.TakenIn(config, interval, s, i) == |i.frames|
  {
    QuietWritePhases(config, interval, s, i);
    var w := Daemon.WritePhases(config, interval, s, i);
    QuietReads(w.loop, i.now, i.frames, i.now + Daemon.HELLO_PERIOD);
    assert w.written + [] == w.written;
  }

  // ---------------------------------------------------------------- one turn of the device

  /** Manifests and nothing else. */
  predicate OnlyManifests(inbox: seq<Stick.HostFrame>) {
    forall k :: 0 <= k < |inbox| ==> inbox[k].Message? && (inbox[k].message.Display? || inbox[k].message.Network?)
  }

  lemma {:induction false} ManifestsChangeLittle(s: Stick.State, now: int, inbox: seq<Stick.HostFrame>)
    requires OnlyManifests(inbox)
    ensures var r := Stick.ReceiveAll(s, now, inbox);
      && r.hellos == [] && r.state.mode == s.mode && r.state.session == s.session
      && r.state.lastHello == s.lastHello
    decreases |inbox|
  {
    if inbox != [] {
      ManifestsChangeLittle(s, now, inbox[..|inbox| - 1]);
      assert inbox[|inbox| - 1].Message?;
    }
  }

  predicate Speaks(s: Stick.State, now: int) {
    s.mode != Stick.Connected && s.mode != Stick.ShuttingDown && Recovery.TickDue(s, now)
  }

  /** A turn over manifests, or over nothing. */
  lemma ManifestTurn(s: Stick.State, i: Stick.Input)
    requires OnlyManifests(i.inbox)
    ensures var o := Stick.Turn(s, i);
      && o.hellos == (if Speaks(s, i.now) then [s.session] else [])
      && o.state.lastHello == (if Speaks(s, i.now) then Some(i.now) else s.lastHello)
      && (s.mode != Stick.Connected ==> !o.request && o.state.mode == s.mode && o.state.session == s.session)
  {
    var greeted := Stick.HelloTick(s, i.now);
    ManifestsChangeLittle(greeted.state, i.now, i.inbox);
    TailChangesLittle(Stick.ReceiveAll(greeted.state, i.now, i.inbox).state, i);
    assert greeted.hellos + [] == greeted.hellos;
  }

  /** The age check, the button and the timers, of a device that is not connected. */
  lemma TailChangesLittle(s: Stick.State, i: Stick.Input)
    ensures var p := Stick.Press(Stick.Age(s, i.now), i.now, i.action, i.held);
      var t := Stick.ShutdownTimers(p.state, i.now, i.usb);
      && t.lastHello == s.lastHello
      && (s.mode != Stick.Connected ==> !p.request && t.mode == s.mode && t.session == s.session)
  {
    var aged := Stick.Age(s, i.now);
    assert aged.lastHello == s.lastHello && (s.mode != Stick.Connected ==> aged == s);
    ButtonChangesLittle(aged, i.now, i.action, i.held);
    Stick.TimersTouchOnlyTheShutdownScreen(Stick.Press(aged, i.now, i.action, i.held).state, i.now, i.usb);
  }

  lemma ButtonChangesLittle(s: Stick.State, now: int, action: Option<Stick.ButtonAction>, held: Option<int>)
    ensures var p := Stick.Press(s, now, action, held);
      && p.state.lastHello == s.lastHello && p.state.mode == s.mode && p.state.session == s.session
      && (p.request ==> s.mode == Stick.Connected)
  {
  }

  /** A turn over a challenge. */
  lemma ChallengeTurn(s: Stick.State, i: Stick.Input, nonce: Nonce)
    requires i.inbox == [Stick.Message(Challenge(VERSION, nonce))]
    ensures var o := Stick.Turn(s, i);
      && o.hellos == (if Speaks(s, i.now) then [s.session] else []) + [Some(nonce)]
      && o.state.lastHello == (if Speaks(s, i.now) then Some(i.now) else s.lastHello)
      && !o.request && o.state.mode == Stick.Waiting && o.state.session == Some(nonce)
  {
    var greeted := Stick.HelloTick(s, i.now).state;
    assert i.inbox[..0] == [] && Stick.ReceiveAll(greeted, i.now, []).state == greeted;
    var received := Stick.ReceiveAll(greeted, i.now, i.inbox);
    assert received == Stick.Outcome(Stick.Receive(greeted, i.now, i.inbox[0]).state, [Some(nonce)], false);
    TailChangesLittle(received.state, i);
  }

  // ---------------------------------------------------------------- a cycle of both loops

  /** The daemon's turn over everything on its line. */
  function Heeded(config: Config, interval: nat, j: System, now: int): System
    requires Daemon.Configured(config)
  {
    After(config, interval, j, DaemonTurn(QuietInput(now), |j.world.toHost|))
  }

  /** The device's turn over everything on its line. */
  function Turned(config: Config, interval: nat, j: System, now: int, pressed: bool): System
    requires Daemon.Configured(config)
  {
    After(config, interval, j, DeviceTurn(now, true, |j.world.toStick|, pressed))
  }

  /** The device's queue goes out. */
  function Emitted(config: Config, interval: nat, j: System, n: nat): System
    requires Daemon.Configured(config)
  {
    if n == 0 then j else After(config, interval, Emitted(config, interval, j, n - 1), LineMoves(Emit))
  }

  function Cycle(config: Config, interval: nat, j: System, now: int, pressed: bool): System
    requires Daemon.Configured(config)
  {
    var d := Turned(config, interval, Heeded(config, interval, j, now), now, pressed);
    Emitted(config, interval, d, |d.world.queue|)
  }

  /** Both loops run, with the port open. */
  ghost predicate Running(j: System) {
    InStep(j) && j.running && j.daemon.session.open
  }

  function Heard(j: System): seq<Result<DeviceMessage>> {
    TurnRefinement.Said(j.world.toHost)
  }

  ghost predicate HeededAs(j: System, k: System, now: int)
  {
    && k.stick == j.stick && k.daemon.session == HeardSession(j.daemon.session, Heard(j))
    && k.daemon.nextHello <= now + Daemon.HELLO_PERIOD
    && k.world.toHost == [] && k.world.queue == j.world.queue
    && k.world.toStick == j.world.toStick + Stick.Framed(QuietWrites(j.daemon, now))
  }

  lemma HeededEffect(config: Config, interval: nat, j: System, now: int)
    requires Daemon.Configured(config) && Running(j) && j.daemon.nextHello <= now + Daemon.HELLO_PERIOD
    ensures var k := Heeded(config, interval, j, now); Running(k) && HeededAs(j, k, now)
  {
    var r := DaemonTurn(QuietInput(now), |j.world.toHost|);
    var i := DaemonInput(j, r.input, r.arrived);
    assert i.frames == Heard(j);
    QuietTurn(config, interval, j.daemon, i);
    DaemonRefinement.TurnIsARun(config, interval, j.daemon, i, j.world);
    RoundKeepsInStep(config, interval, j, r);
    var acts := DaemonRefinement.TurnActs(config, interval, j.daemon, i);
    assert acts + [] == acts;
  }

  ghost predicate TurnedAs(j: System, k: System, now: int, i: Stick.Input)
  {
    var o := Stick.Turn(j.stick, i);
    && i.now == now && i.inbox == j.world.toStick
    && k.stick == o.state && k.daemon == j.daemon && k.world.toStick == [] && k.world.toHost == j.world.toHost
    && (!o.request ==>
          TurnRefinement.Said(k.world.queue)
          == TurnRefinement.OfferHellos(TurnRefinement.Said(j.world.queue), o.hellos))
  }

  lemma TurnedEffect(config: Config, interval: nat, j: System, now: int, pressed: bool) returns (i: Stick.Input)
    requires Daemon.Configured(config) && Running(j)
    ensures var k := Turned(config, interval, j, now, pressed); Running(k) && TurnedAs(j, k, now, i)
  {
    var r := DeviceTurn(now, true, |j.world.toStick|, pressed);
    i := DeviceInput(j, now, true, |j.world.toStick|, pressed);
    assert j.world.toStick[..|j.world.toStick|] == j.world.toStick;
    TurnRefinement.TurnIsARun(j.world, i);
    RoundKeepsInStep(config, interval, j, r);
  }

  lemma {:induction false} EmittedEffect(config: Config, interval: nat, j: System, n: nat)
    requires Daemon.Configured(config) && n <= |j.world.queue|
    ensures Emitted(config, interval, j, n)
         == j.(world := j.world.(toHost := j.world.toHost + j.world.queue[..n], queue := j.world.queue[n..]))
  {
    if n > 0 {
      EmittedEffect(config, interval, j, n - 1);
      var before := Emitted(config, interval, j, n - 1);
      OneEmitted(config, interval, before);
      assert j.world.queue[..n] == j.world.queue[..n - 1] + [j.world.queue[n - 1]];
      Regrouped(j.world.toHost, j.world.queue[..n - 1], [j.world.queue[n - 1]]);
    } else {
      assert j.world.toHost + j.world.queue[..0] == j.world.toHost;
    }
  }

  lemma OneEmitted(config: Config, interval: nat, j: System)
    requires Daemon.Configured(config) && j.world.queue != []
    ensures After(config, interval, j, LineMoves(Emit))
         == j.(world := j.world.(toHost := j.world.toHost + [j.world.queue[0]], queue := j.world.queue[1..]))
  {
    OneAct(j.world, Emit);
  }

  /** Hellos that acknowledge these sessions. */
  function Hellos(sessions: seq<Option<Nonce>>): seq<Result<DeviceMessage>> {
    seq(|sessions|, k requires 0 <= k < |sessions| => Ok(Hello(VERSION, sessions[k])))
  }

  lemma OneHelloFits(a: Option<Nonce>)
    ensures TurnRefinement.OfferHellos([], [a]) == [Ok(Hello(VERSION, a))]
  {
    assert [a][..0] == [];
  }

  lemma TwoHellosFit(a: Option<Nonce>, b: Option<Nonce>)
    ensures TurnRefinement.OfferHellos([], [a, b]) == [Ok(Hello(VERSION, a)), Ok(Hello(VERSION, b))]
  {
    OneHelloFits(a);
    assert [a, b][..1] == [a];
  }

  lemma FewHellosFit(sessions: seq<Option<Nonce>>)
    requires |sessions| <= 2
    ensures TurnRefinement.OfferHellos([], sessions) == Hellos(sessions)
  {
    if |sessions| == 2 {
      TwoHellosFit(sessions[0], sessions[1]);
      assert sessions == [sessions[0], sessions[1]];
    } else if |sessions| == 1 {
      OneHelloFits(sessions[0]);
      assert sessions == [sessions[0]];
    }
  }

  ghost predicate EmittedAs(d: System, k: System)
  {
    && k.stick == d.stick && k.daemon == d.daemon && k.world.queue == [] && k.world.toStick == d.world.toStick
    && (d.world.toHost == [] ==> k.world.toHost == d.world.queue)
  }

  lemma AllEmitted(config: Config, interval: nat, d: System)
    requires Daemon.Configured(config) && Running(d)
    ensures var k := Emitted(config, interval, d, |d.world.queue|); Running(k) && EmittedAs(d, k)
  {
    EmittedEffect(config, interval, d, |d.world.queue|);
    EmittedInStep(d, Emitted(config, interval, d, |d.world.queue|));
  }

  lemma OffersAreHellos(queue: seq<Line>, o: Stick.Outcome)
    requires queue == [] && |o.hellos| <= 2
    ensures TurnRefinement.OfferHellos(TurnRefinement.Said(queue), o.hellos) == Hellos(o.hellos)
  {
    FewHellosFit(o.hellos);
    assert TurnRefinement.Said(queue) == [];
  }

  /** What a cycle does at this time, over what has arrived and what the daemon writes in it. */
  ghost predicate CycledAs(j: System, k: System, now: int, i: Stick.Input)
  {
    var o := Stick.Turn(j.stick, i);
    && i.now == now && i.inbox == j.world.toStick + Stick.Framed(QuietWrites(j.daemon, now))
    && k.stick == o.state && k.daemon.session == HeardSession(j.daemon.session, Heard(j))
    && k.daemon.nextHello <= now + Daemon.HELLO_PERIOD && k.world.toStick == [] && k.world.queue == []
    && (j.world.queue == [] && |o.hellos| <= 2 && !o.request ==> Heard(k) == Hellos(o.hellos))
  }

  lemma CycleEffect(config: Config, interval: nat, j: System, now: int, pressed: bool) returns (i: Stick.Input)
    requires Daemon.Configured(config) && Running(j) && j.daemon.nextHello <= now + Daemon.HELLO_PERIOD
    ensures var k := Cycle(config, interval, j, now, pressed); Running(k) && CycledAs(j, k, now, i)
  {
    HeededEffect(config, interval, j, now);
    var h := Heeded(config, interval, j, now);
    i := TurnedEffect(config, interval, h, now, pressed);
    var d := Turned(config, interval, h, now, pressed);
    AllEmitted(config, interval, d);
    ThreeParts(j, h, d, Cycle(config, interval, j, now, pressed), now, i);
  }

  lemma ThreeParts(j: System, h: System, d: System, k: System, now: int, i: Stick.Input)
    requires HeededAs(j, h, now) && TurnedAs(h, d, now, i) && EmittedAs(d, k)
    ensures CycledAs(j, k, now, i)
  {
    var o := Stick.Turn(j.stick, i);
    if j.world.queue == [] && |o.hellos| <= 2 {
      OffersAreHellos(j.world.queue, o);
    }
  }

  lemma EmittedInStep(d: System, k: System)
    requires InStep(d)
    requires k == d.(world := d.world.(toHost := d.world.toHost + d.world.queue[..|d.world.queue|],
                                       queue := d.world.queue[|d.world.queue|..]))
    ensures InStep(k) && k.world.queue == [] && (d.world.toHost == [] ==> k.world.toHost == d.world.queue)
  {
    var known := Origins(d.asked);
    forall n | 0 <= n < |k.world.toHost| ensures KnownLine(k.world.toHost[n], known) {
      if n < |d.world.toHost| {
        assert KnownLine(d.world.toHost[n], known);
      } else {
        assert k.world.toHost[n] == d.world.queue[n - |d.world.toHost|];
      }
    }
  }

  // ---------------------------------------------------------------- what the cycles come to

  /** Between two cycles, the earlier one at this time. */
  ghost predicate Between(j: System, last: int)
  {
    && j.daemon.session.open && j.world.toStick == [] && j.world.queue == []
    && j.daemon.nextHello <= last + Daemon.HELLO_PERIOD
    && (j.stick.lastHello.Some? ==> j.stick.lastHello.value <= last)
    && (j.daemon.session.established ==> j.daemon.session.synchronized)
  }

  /** Both sides hold the handshake of the daemon's session. */
  predicate Done(j: System) {
    && j.daemon.session == Session(true, j.daemon.session.nonce, true, true)
    && j.stick.session == Some(j.daemon.session.nonce)
  }

  /** The device has answered the challenge of this opening, and its answer is the last on the line. */
  ghost predicate Answering(j: System)
  {
    && j.stick.mode == Stick.Waiting && j.stick.session == Some(j.daemon.session.nonce)
    && Heard(j) != [] && Heard(j)[|Heard(j)| - 1] == Ok(Hello(VERSION, Some(j.daemon.session.nonce)))
  }

  lemma {:induction false} SynchronizedWhenEstablished(h: Session, frames: seq<Result<DeviceMessage>>)
    requires h.established ==> h.synchronized
    ensures HeardSession(h, frames).established ==> HeardSession(h, frames).synchronized
  {
  }

  lemma ManifestCycle(j: System, k: System, last: int, i: Stick.Input)
    requires Between(j, last) && CycledAs(j, k, last + Daemon.HELLO_PERIOD, i) && j.daemon.session.established
    ensures Between(k, last + Daemon.HELLO_PERIOD)
    ensures j.stick.mode != Stick.Connected ==>
      && k.stick.mode == j.stick.mode && k.stick.session == j.stick.session
      && (j.stick.mode != Stick.ShuttingDown ==> Heard(k) == [Ok(Hello(VERSION, j.stick.session))])
  {
    assert OnlyManifests(i.inbox);
    ManifestTurn(j.stick, i);
    SynchronizedWhenEstablished(j.daemon.session, Heard(j));
    assert Hellos([j.stick.session]) == [Ok(Hello(VERSION, j.stick.session))];
  }

  lemma ChallengeCycle(j: System, k: System, last: int, i: Stick.Input)
    requires Between(j, last) && CycledAs(j, k, last + Daemon.HELLO_PERIOD, i) && !j.daemon.session.established
    ensures Between(k, last + Daemon.HELLO_PERIOD) && Answering(k)
  {
    var nonce := j.daemon.session.nonce;
    assert i.inbox == [Stick.Message(Challenge(VERSION, nonce))];
    ChallengeTurn(j.stick, i, nonce);
    SynchronizedWhenEstablished(j.daemon.session, Heard(j));
  }

  lemma {:induction false} LastAnswerCounts(h: Session, frames: seq<Result<DeviceMessage>>)
    requires frames != [] && frames[|frames| - 1] == Ok(Hello(VERSION, Some(h.nonce)))
    requires h.synchronized || |frames| >= 2
    ensures HeardEstablished(h, frames)
    decreases |frames|
  {
    if !h.synchronized {
      LastAnswerCounts(h.(synchronized := true), frames[1..]);
    } else if |frames| == 1 {
      assert HeardEstablished(OnFrame(h, frames[0]), frames[1..]) == OnFrame(h, frames[0]).established;
    } else {
      LastAnswerCounts(OnFrame(h, frames[0]), frames[1..]);
    }
  }

  /** With an answer on the line the handshake stands behind a cycle, unless the port was not
      synchronised; then it is now, and the device repeats its answer. */
  lemma AnsweringCycle(j: System, k: System, last: int, i: Stick.Input)
    requires Between(j, last) && CycledAs(j, k, last + Daemon.HELLO_PERIOD, i) && Answering(j)
    ensures Between(k, last + Daemon.HELLO_PERIOD) && Answering(k) && k.daemon.session.synchronized
    ensures j.daemon.session.synchronized ==> Done(k)
  {
    if j.daemon.session.established {
      ManifestCycle(j, k, last, i);
    } else {
      ChallengeCycle(j, k, last, i);
    }
    if j.daemon.session.synchronized {
      LastAnswerCounts(j.daemon.session, Heard(j));
    }
  }

  /** The daemon holds the handshake of a device that has given the session up. */
  ghost predicate Abandoned(j: System) {
    && j.daemon.session.established && j.stick.session == None
    && j.stick.mode != Stick.Connected && j.stick.mode != Stick.ShuttingDown
  }

  /** It hears so in its next turn but one at the latest. */
  lemma AbandonedCycle(j: System, k: System, last: int, i: Stick.Input)
    requires Between(j, last) && CycledAs(j, k, last + Daemon.HELLO_PERIOD, i) && Abandoned(j)
    ensures Between(k, last + Daemon.HELLO_PERIOD)
    ensures k.daemon.session.established ==> Abandoned(k) && Heard(k) == [Ok(Hello(VERSION, None))]
    ensures Heard(j) == [Ok(Hello(VERSION, None))] ==> !k.daemon.session.established
  {
    ManifestCycle(j, k, last, i);
    if Heard(j) == [Ok(Hello(VERSION, None))] {
      assert HeardEstablished(OnFrame(j.daemon.session, Heard(j)[0]), []) == false;
      assert Heard(j)[1..] == [];
    }
  }

  // ---------------------------------------------------------------- cycles as rounds

  /** The configuration, the first nonce, the start, and whether the button is held down. */
  datatype Setting = Setting(config: Config, interval: nat, nonce: Nonce, start: int, pressed: bool)

  /** The system behind these rounds. */
  function Reached(s: Setting, rounds: seq<Round>): System
    requires Daemon.Configured(s.config)
  {
    Run(s.config, s.interval, Begun(s.config, s.nonce, s.start), rounds)
  }

  lemma {:induction false} RunConcat(config: Config, interval: nat, j: System, a: seq<Round>, b: seq<Round>)
    requires Daemon.Configured(config)
    ensures Run(config, interval, j, a + b) == Run(config, interval, Run(config, interval, j, a), b)
    decreases |b|
  {
    if b == [] {
      assert a + b == a;
    } else {
      var init, all := b[..|b| - 1], a + b;
      WithoutLast(a, b);
      RunConcat(config, interval, j, a, init);
      assert Run(config, interval, j, all) == After(config, interval, Run(config, interval, j, a + init), b[|b| - 1]);
    }
  }

  lemma WithoutLast(a: seq<Round>, b: seq<Round>)
    requires b != []
    ensures (a + b)[..|a + b| - 1] == a + b[..|b| - 1] && (a + b)[|a + b| - 1] == b[|b| - 1]
  {
  }

  function Emissions(n: nat): seq<Round> {
    seq(n, _ => LineMoves(Emit))
  }

  lemma {:induction false} EmissionsRun(config: Config, interval: nat, j: System, n: nat)
    requires Daemon.Configured(config)
    ensures Run(config, interval, j, Emissions(n)) == Emitted(config, interval, j, n)
  {
    if n > 0 {
      EmissionsRun(config, interval, j, n - 1);
      assert Emissions(n)[..n - 1] == Emissions(n - 1);
    }
  }

  lemma OneRound(config: Config, interval: nat, j: System, rounds: seq<Round>, a: Round)
    requires Daemon.Configured(config) && rounds == [a]
    ensures Run(config, interval, j, rounds) == After(config, interval, j, a)
  {
    assert rounds[..|rounds| - 1] == [];
  }

  lemma TwoRounds(config: Config, interval: nat, j: System, first: System, second: System, rounds: seq<Round>)
    requires Daemon.Configured(config) && |rounds| == 2
    requires first == After(config, interval, j, rounds[0]) && second == After(config, interval, first, rounds[1])
    ensures Run(config, interval, j, rounds) == second
  {
    OneRound(config, interval, j, rounds[..1], rounds[0]);
    assert Run(config, interval, j, rounds[..1]) == first;
  }

  function CycleRounds(config: Config, interval: nat, j: System, now: int, pressed: bool): seq<Round>
    requires Daemon.Configured(config)
  {
    var h := Heeded(config, interval, j, now);
    var d := Turned(config, interval, h, now, pressed);
    TurnRounds(j, h, now, pressed) + Emissions(|d.world.queue|)
  }

  function TurnRounds(j: System, h: System, now: int, pressed: bool): seq<Round> {
    [DaemonTurn(QuietInput(now), |j.world.toHost|), DeviceTurn(now, true, |h.world.toStick|, pressed)]
  }

  lemma TurnRoundsRun(config: Config, interval: nat, j: System, now: int, pressed: bool)
    requires Daemon.Configured(config)
    ensures var h := Heeded(config, interval, j, now);
      Run(config, interval, j, TurnRounds(j, h, now, pressed)) == Turned(config, interval, h, now, pressed)
  {
    var h := Heeded(config, interval, j, now);
    TwoRounds(config, interval, j, h, Turned(config, interval, h, now, pressed), TurnRounds(j, h, now, pressed));
  }

  lemma CycleRoundsRun(config: Config, interval: nat, j: System, now: int, pressed: bool)
    requires Daemon.Configured(config)
    ensures Run(config, interval, j, CycleRounds(config, interval, j, now, pressed))
         == Cycle(config, interval, j, now, pressed)
  {
    var h := Heeded(config, interval, j, now);
    var d := Turned(config, interval, h, now, pressed);
    TurnRoundsRun(config, interval, j, now, pressed);
    EmissionsRun(config, interval, d, |d.world.queue|);
    RunConcat(config, interval, j, TurnRounds(j, h, now, pressed), Emissions(|d.world.queue|));
  }

  // ---------------------------------------------------------------- every open port

  /** A full second from the first of these turns, and at most six. */
  predicate OnTheSecond(t: int, now: int) {
    (t - now) % Daemon.HELLO_PERIOD == 0 && now <= t <= now + 6 * Daemon.HELLO_PERIOD
  }

  /** Turns of both loops over everything that has arrived, and frames going out: no reset, no
      opening, no fault. */
  predicate IsQuiet(r: Round, now: int)
  {
    match r
    case DaemonTurn(input, _) => input == QuietInput(input.now) && OnTheSecond(input.now, now)
    case DeviceTurn(t, usb, _, _) => usb && OnTheSecond(t, now)
    case LineMoves(act) => act.Emit?
    case _ => false
  }

  ghost predicate AllQuiet(rounds: seq<Round>, now: int) {
    forall k :: 0 <= k < |rounds| ==> IsQuiet(rounds[k], now)
  }

  /** What every run of the loops comes to. */
  lemma RunIsHonest(s: Setting, rounds: seq<Round>)
    requires Daemon.Configured(s.config)
    ensures var j := Reached(s, rounds);
      && InStep(j) && Stick.Sound(j.stick) && |j.world.queue| <= UsbTransmit.QUEUE_CAPACITY
      && (j.daemon.session.open && j.daemon.session.established ==>
            && j.daemon.session.synchronized
            && (j.stick.session == None || j.stick.session == Some(j.daemon.session.nonce)))
  {
    var acts := RunIsALinkRun(s.config, s.interval, s.nonce, s.start, rounds);
    var mark := ReachableIsInvariant(s.nonce, s.start, acts);
    Recovery.EstablishedIsSynchronized(s.nonce, s.start, acts);
    LoopsAgree(s.config, s.interval, s.nonce, s.start, rounds);
  }

  lemma CycleIsShort(s: Setting, rounds: seq<Round>, j: System, now: int)
    requires Daemon.Configured(s.config) && j == Reached(s, rounds)
    ensures |CycleRounds(s.config, s.interval, j, now, s.pressed)| <= 10
  {
    var h := Heeded(s.config, s.interval, j, now);
    TurnRoundsRun(s.config, s.interval, j, now, s.pressed);
    RunConcat(s.config, s.interval, Begun(s.config, s.nonce, s.start), rounds, TurnRounds(j, h, now, s.pressed));
    RunIsHonest(s, rounds + TurnRounds(j, h, now, s.pressed));
  }

  lemma CycleIsQuiet(config: Config, interval: nat, j: System, now: int, pressed: bool, first: int)
    requires Daemon.Configured(config) && OnTheSecond(now, first)
    ensures AllQuiet(CycleRounds(config, interval, j, now, pressed), first)
  {
    var h := Heeded(config, interval, j, now);
    assert AllQuiet(TurnRounds(j, h, now, pressed), first);
    assert forall n :: AllQuiet(Emissions(n), first);
  }

  lemma CycleOfRun(s: Setting, rounds: seq<Round>, j: System, now: int)
    requires Daemon.Configured(s.config) && j == Reached(s, rounds)
    ensures Reached(s, rounds + CycleRounds(s.config, s.interval, j, now, s.pressed))
         == Cycle(s.config, s.interval, j, now, s.pressed)
  {
    CycleRoundsRun(s.config, s.interval, j, now, s.pressed);
    RunConcat(s.config, s.interval, Begun(s.config, s.nonce, s.start), rounds,
              CycleRounds(s.config, s.interval, j, now, s.pressed));
  }

  /** One more cycle of the run, in at most ten rounds. */
  lemma OneMoreCycle(s: Setting, rounds: seq<Round>, j: System, now: int, first: int)
    returns (more: seq<Round>, k: System, i: Stick.Input)
    requires Daemon.Configured(s.config) && OnTheSecond(now, first) && j == Reached(s, rounds)
    requires j.running && j.daemon.session.open && j.daemon.nextHello <= now + Daemon.HELLO_PERIOD
    ensures k == Reached(s, rounds + more) && k.running && CycledAs(j, k, now, i)
    ensures |more| <= 10 && AllQuiet(more, first)
  {
    RunIsHonest(s, rounds);
    i := CycleEffect(s.config, s.interval, j, now, s.pressed);
    more := CycleRounds(s.config, s.interval, j, now, s.pressed);
    k := Cycle(s.config, s.interval, j, now, s.pressed);
    CycleOfRun(s, rounds, j, now);
    CycleIsShort(s, rounds, j, now);
    CycleIsQuiet(s.config, s.interval, j, now, s.pressed, first);
  }

  /** These rounds follow those, and the system behind them all is this one, in the same opening. */
  ghost predicate Follow(s: Setting, rounds: seq<Round>, more: seq<Round>, k: System, first: int, cycles: nat)
    requires Daemon.Configured(s.config)
  {
    && k == Reached(s, rounds + more) && k.running && |more| <= 10 * cycles && AllQuiet(more, first)
    && k.daemon.session.nonce == Reached(s, rounds).daemon.session.nonce
  }

  lemma FollowOn(s: Setting, rounds: seq<Round>, a: seq<Round>, j: System, m: nat, b: seq<Round>, k: System, n: nat,
                 first: int)
    requires Daemon.Configured(s.config)
    requires Follow(s, rounds, a, j, first, m) && Follow(s, rounds + a, b, k, first, n)
    ensures Follow(s, rounds, a + b, k, first, m + n)
  {
    Regrouped(rounds, a, b);
    QuietTogether(a, b, first);
  }

  lemma QuietTogether(a: seq<Round>, b: seq<Round>, first: int)
    requires AllQuiet(a, first) && AllQuiet(b, first)
    ensures AllQuiet(a + b, first)
  {
  }

  /** The times of cycles that are still to come. */
  predicate TimeFor(cycles: nat, last: int, first: int) {
    (last - first) % Daemon.HELLO_PERIOD == 0 && first <= last
    && last + cycles * Daemon.HELLO_PERIOD <= first + 6 * Daemon.HELLO_PERIOD
  }

  lemma NextSecond(last: int, first: int)
    requires TimeFor(1, last, first)
    ensures OnTheSecond(last + Daemon.HELLO_PERIOD, first)
  {
  }

  lemma FromHeardAnswer(s: Setting, rounds: seq<Round>, j: System, last: int, first: int)
    returns (more: seq<Round>, k: System)
    requires Daemon.Configured(s.config) && j == Reached(s, rounds) && j.running && TimeFor(1, last, first)
    requires Between(j, last) && Answering(j) && j.daemon.session.synchronized
    ensures Follow(s, rounds, more, k, first, 1) && Done(k)
  {
    var i;
    NextSecond(last, first);
    more, k, i := OneMoreCycle(s, rounds, j, last + Daemon.HELLO_PERIOD, first);
    AnsweringCycle(j, k, last, i);
  }

  lemma FromAnswering(s: Setting, rounds: seq<Round>, j: System, last: int, first: int)
    returns (more: seq<Round>, k: System)
    requires Daemon.Configured(s.config) && j == Reached(s, rounds) && j.running && TimeFor(2, last, first)
    requires Between(j, last) && Answering(j)
    ensures Follow(s, rounds, more, k, first, 2) && Done(k)
  {
    NextSecond(last, first);
    if j.daemon.session.synchronized {
      more, k := FromHeardAnswer(s, rounds, j, last, first);
    } else {
      var a, m, i := OneMoreCycle(s, rounds, j, last + Daemon.HELLO_PERIOD, first);
      AnsweringCycle(j, m, last, i);
      var b;
      b, k := FromHeardAnswer(s, rounds + a, m, last + Daemon.HELLO_PERIOD, first);
      FollowOn(s, rounds, a, m, 1, b, k, 1, first);
      more := a + b;
    }
  }

  lemma FromUnestablished(s: Setting, rounds: seq<Round>, j: System, last: int, first: int)
    returns (more: seq<Round>, k: System)
    requires Daemon.Configured(s.config) && j == Reached(s, rounds) && j.running && TimeFor(3, last, first)
    requires Between(j, last) && !j.daemon.session.established
    ensures Follow(s, rounds, more, k, first, 3) && Done(k)
  {
    NextSecond(last, first);
    var a, m, i := OneMoreCycle(s, rounds, j, last + Daemon.HELLO_PERIOD, first);
    ChallengeCycle(j, m, last, i);
    var b;
    b, k := FromAnswering(s, rounds + a, m, last + Daemon.HELLO_PERIOD, first);
    FollowOn(s, rounds, a, m, 1, b, k, 2, first);
    more := a + b;
  }

  /** The device's Hello that says so is on the line. */
  lemma FromSaidSo(s: Setting, rounds: seq<Round>, j: System, last: int, first: int)
    returns (more: seq<Round>, k: System)
    requires Daemon.Configured(s.config) && j == Reached(s, rounds) && j.running && TimeFor(4, last, first)
    requires Between(j, last) && Abandoned(j) && Heard(j) == [Ok(Hello(VERSION, None))]
    ensures Follow(s, rounds, more, k, first, 4) && Done(k)
  {
    NextSecond(last, first);
    var a, m, i := OneMoreCycle(s, rounds, j, last + Daemon.HELLO_PERIOD, first);
    AbandonedCycle(j, m, last, i);
    var b;
    b, k := FromUnestablished(s, rounds + a, m, last + Daemon.HELLO_PERIOD, first);
    FollowOn(s, rounds, a, m, 1, b, k, 3, first);
    more := a + b;
  }

  lemma FromAbandoned(s: Setting, rounds: seq<Round>, j: System, last: int, first: int)
    returns (more: seq<Round>, k: System)
    requires Daemon.Configured(s.config) && j == Reached(s, rounds) && j.running && TimeFor(5, last, first)
    requires Between(j, last) && Abandoned(j)
    ensures Follow(s, rounds, more, k, first, 5) && Done(k)
  {
    NextSecond(last, first);
    var a, m, i := OneMoreCycle(s, rounds, j, last + Daemon.HELLO_PERIOD, first);
    AbandonedCycle(j, m, last, i);
    var b;
    if m.daemon.session.established {
      b, k := FromSaidSo(s, rounds + a, m, last + Daemon.HELLO_PERIOD, first);
    } else {
      b, k := FromUnestablished(s, rounds + a, m, last + Daemon.HELLO_PERIOD, first);
    }
    FollowOn(s, rounds, a, m, 1, b, k, 4, first);
    more := a + b;
  }

  lemma FromBetween(s: Setting, rounds: seq<Round>, j: System, last: int, first: int)
    returns (more: seq<Round>, k: System)
    requires Daemon.Configured(s.config) && j == Reached(s, rounds) && j.running && TimeFor(5, last, first)
    requires Between(j, last)
    ensures Follow(s, rounds, more, k, first, 5) && Done(k)
  {
    RunIsHonest(s, rounds);
    if !j.daemon.session.established {
      more, k := FromUnestablished(s, rounds, j, last, first);
    } else if j.stick.session == None {
      more, k := FromAbandoned(s, rounds, j, last, first);
    } else {
      more, k := [], j;
      assert rounds + [] == rounds;
    }
  }

  // ---------------------------------------------------------------- the first cycle

  lemma {:induction false} HelloTimeStays(s: Stick.State, now: int, inbox: seq<Stick.HostFrame>)
    ensures Stick.ReceiveAll(s, now, inbox).state.lastHello == s.lastHello
    decreases |inbox|
  {
    if inbox != [] {
      HelloTimeStays(s, now, inbox[..|inbox| - 1]);
      Recovery.ReceiveKeepsHelloTime(Stick.ReceiveAll(s, now, inbox[..|inbox| - 1]).state, now, inbox[|inbox| - 1]);
    }
  }

  lemma FirstCycle(j: System, k: System, now: int, i: Stick.Input)
    requires CycledAs(j, k, now, i) && j.daemon.session.open
    requires j.stick.lastHello.Some? ==> j.stick.lastHello.value <= now
    requires j.daemon.session.established ==> j.daemon.session.synchronized
    ensures Between(k, now)
  {
    DeviceTurnKeepsTime(j.stick, i);
    SynchronizedWhenEstablished(j.daemon.session, Heard(j));
  }

  // ---------------------------------------------------------------- the clock

  /** This round is not later than that. */
  predicate UpTo(r: Round, now: int)
  {
    match r
    case DeviceTurn(t, _, _, _) => t <= now
    case DaemonTurn(input, _) => input.now <= now
    case DaemonStarts(t) => t <= now
    case DeviceResets(t) => t <= now
    case LineMoves(_) => true
  }

  ghost predicate AllUpTo(rounds: seq<Round>, now: int) {
    forall k :: 0 <= k < |rounds| ==> UpTo(rounds[k], now)
  }

  /** What the loops have noted of the time. */
  predicate ClocksUpTo(s: Daemon.Loop, t: Stick.State, now: int) {
    s.nextHello <= now + Daemon.HELLO_PERIOD && (t.lastHello.Some? ==> t.lastHello.value <= now)
  }

  lemma {:induction false} ReadsKeepTime(s: Daemon.Loop, now: int, frames: seq<Result<DeviceMessage>>,
                                         handlings: seq<Daemon.Handling>, limit: int)
    requires s.nextHello <= limit && now <= limit
    ensures Daemon.ReadPhase(s, now, frames, handlings).loop.nextHello <= limit
    decreases |frames|
  {
    if frames != [] {
      if !s.session.synchronized {
        ReadsKeepTime(s.(session := s.session.(synchronized := true)), now, frames[1..], handlings, limit);
      } else if HandsOver(s.session, frames[0]) {
        ReadsKeepTime(s, now, frames[1..], Daemon.Others(handlings), limit);
      } else {
        ReadsKeepTime(Daemon.Heard(s, now, frames[0]), now, frames[1..], handlings, limit);
      }
    }
  }

  lemma UpdateKeepsTime(config: Config, s: Daemon.Loop, i: Daemon.Input, guests: nat)
    ensures Daemon.UpdatePhase(config, s, i, guests).loop.nextHello == s.nextHello
  {
  }

  lemma WritesKeepTime(config: Config, interval: nat, s: Daemon.Loop, i: Daemon.Input, limit: int)
    requires s.nextHello <= limit && i.now + Daemon.HELLO_PERIOD <= limit
    ensures Daemon.WritePhases(config, interval, s, i).loop.nextHello <= limit
  {
    var hello := Daemon.HelloPhase(s, i);
    var manifest := Daemon.ManifestPhase(hello.loop, i);
    if i.latest.Some? {
      UpdateKeepsTime(config, manifest.loop, i, i.latest.value.guests);
    }
  }

  lemma DaemonTurnKeepsTime(config: Config, interval: nat, s: Daemon.Loop, i: Daemon.Input, limit: int)
    requires s.nextHello <= limit && i.now + Daemon.HELLO_PERIOD <= limit
    ensures Daemon.Turn(config, interval, s, i).loop.nextHello <= limit
  {
    var ready := Daemon.Ready(s, i);
    WritesKeepTime(config, interval, ready, i, limit);
    ReadsKeepTime(Daemon.WritePhases(config, interval, ready, i).loop, i.now, i.frames, i.handlings, limit);
  }

  lemma DeviceTurnKeepsTime(s: Stick.State, i: Stick.Input)
    ensures var t := Stick.Turn(s, i).state; t.lastHello == s.lastHello || t.lastHello == Some(i.now)
  {
    var greeted := Stick.HelloTick(s, i.now).state;
    HelloTimeStays(greeted, i.now, i.inbox);
    TailChangesLittle(Stick.ReceiveAll(greeted, i.now, i.inbox).state, i);
  }

  lemma RoundKeepsTime(config: Config, interval: nat, j: System, r: Round, now: int)
    requires Daemon.Configured(config) && ClocksUpTo(j.daemon, j.stick, now) && UpTo(r, now)
    ensures var k := After(config, interval, j, r); ClocksUpTo(k.daemon, k.stick, now)
  {
    match r
    case DeviceTurn(t, usb, arrived, pressed) => DeviceTurnKeepsTime(j.stick, DeviceInput(j, t, usb, arrived, pressed));
    case DaemonTurn(input, arrived) =>
      DaemonTurnKeepsTime(config, interval, j.daemon, DaemonInput(j, input, arrived), now + Daemon.HELLO_PERIOD);
    case DaemonStarts(_) =>
    case DeviceResets(_) =>
    case LineMoves(_) =>
  }

  lemma {:induction false} RunKeepsTime(s: Setting, rounds: seq<Round>, now: int)
    requires Daemon.Configured(s.config) && s.start <= now && AllUpTo(rounds, now)
    ensures var j := Reached(s, rounds); ClocksUpTo(j.daemon, j.stick, now)
    decreases |rounds|
  {
    if rounds != [] {
      RunKeepsTime(s, rounds[..|rounds| - 1], now);
      RoundKeepsTime(s.config, s.interval, Reached(s, rounds[..|rounds| - 1]), rounds[|rounds| - 1], now);
    }
  }

  /** Recovery of the loops: from every state that any interleaving of their turns reaches with the
      daemon running and its port open, whatever is on the lines, at most sixty more rounds in at
      most six cycles a second apart establish the handshake on both sides. In a cycle the daemon
      and the device take one turn each over all that has arrived, and the device's queue goes
      out. All that the clock must do is not to run back. */
  lemma LoopsRecover(s: Setting, rounds: seq<Round>, now: int) returns (more: seq<Round>)
    requires Daemon.Configured(s.config) && s.start <= now && AllUpTo(rounds, now)
    requires var j := Reached(s, rounds); j.running && j.daemon.session.open
    ensures |more| <= 60 && AllQuiet(more, now)
    ensures var j, k := Reached(s, rounds), Reached(s, rounds + more);
      && k.daemon.session == Session(true, j.daemon.session.nonce, true, true)
      && k.stick.session == Some(j.daemon.session.nonce) && k.running
  {
    var j := Reached(s, rounds);
    RunIsHonest(s, rounds);
    RunKeepsTime(s, rounds, now);
    var a, m, i := OneMoreCycle(s, rounds, j, now, now);
    FirstCycle(j, m, now, i);
    var b, k := FromBetween(s, rounds + a, m, now, now);
    FollowOn(s, rounds, a, m, 1, b, k, 5, now);
    more := a + b;
  }
}
