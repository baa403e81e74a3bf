/** The device's loop with its button and the daemon's loop, turn by turn in any order, over the
    lines between them, with resets, restarts, reopenings and faults. The link's theorems are
    carried over to these loops. */
module Joint {
  import opened Common
  import opened Protocol
  import opened Link
  import opened Pagination
  import opened DaemonRefinement
  import Stick
  import Button
  import Daemon
  import TurnRefinement

  /** A shutdown request that the device's loop queued: the state it was queued in, and the press
      of the button behind it, known by the resets before it and its number since the last one. */
  datatype Asked = Asked(origin: Origin, boot: nat, press: nat, at: int, since: int, hold: int)

  /** Both loops, the samples of the button since the last reset, and the lines. What the loops
      have done is counted beside them. */
  datatype System = System(
    stick: Stick.State, boots: nat, start: int, samples: seq<Button.Sample>, daemon: Daemon.Loop, running: bool,
    world: World, asked: seq<Asked>, handled: nat)

  datatype Round =
    | DeviceTurn(now: int, usb: bool, arrived: nat, pressed: bool)
    | DaemonTurn(input: Daemon.Input, arrived: nat)   // reads up to this many frames
    | DaemonStarts(now: int)
    | DeviceResets(now: int)
    | LineMoves(act: Act)

  predicate OnTheLine(a: Act) {
    a.Emit? || a.LoseToHost? || a.BreakToHost? || a.LoseToStick? || a.BreakToStick?
  }

  /** What the device's loop finds in its turn; the hold time is that of the manifest it holds
      after reading its frames. */
  function Sampled(j: System, now: int, arrived: nat, pressed: bool): Button.Sample
  {
    var greeted := Stick.HelloTick(j.stick, now).state;
    var received := Stick.ReceiveAll(greeted, now, j.world.toStick[..Min(arrived, |j.world.toStick|)]).state;
    Button.Sample(pressed, now, Stick.Age(received, now).display.shutdownHoldMs)
  }

  function Pressing(j: System, now: int, arrived: nat, pressed: bool): (Button.Debouncer, Option<Stick.ButtonAction>) {
    Button.Update(Button.After(j.start, j.samples), Sampled(j, now, arrived, pressed))
  }

  function DeviceInput(j: System, now: int, usb: bool, arrived: nat, pressed: bool): Stick.Input
  {
    var (button, action) := Pressing(j, now, arrived, pressed);
    Stick.Input(now, usb, j.world.toStick[..Min(arrived, |j.world.toStick|)], action, Button.HeldFor(button, now))
  }

  /** What the daemon's loop finds in its turn; nonces are never used twice. */
  function DaemonInput(j: System, i: Daemon.Input, arrived: nat): Daemon.Input
  {
    var n := Min(arrived, |j.world.toHost|);
    i.(frames := seq(n, k requires 0 <= k < n => Decoded(j.world.toHost[k])),
       opens := if i.opens.Some? && i.opens.value in j.world.used then None else i.opens)
  }

  /** The steps of the link that a round is. */
  function RoundActs(config: Config, interval: nat, j: System, r: Round): seq<Act>
  {
    match r
    case DeviceTurn(now, usb, arrived, pressed) => TurnRefinement.TurnActs(DeviceInput(j, now, usb, arrived, pressed))
    case DaemonTurn(input, arrived) =>
      var i := DaemonInput(j, input, arrived);
      if !j.running then []
      else TurnActs(config, interval, j.daemon, i)
           + if Daemon.Turn(config, interval, j.daemon, i).ending == Daemon.Exit then [Close] else []
    case DaemonStarts(_) => [Close]
    case DeviceResets(now) => [Reboot(now)]
    case LineMoves(act) => if OnTheLine(act) then [act] else []
  }

  /** The loops themselves take their turns by Stick.Turn and Daemon.Turn. */
  function LoopsAfter(config: Config, interval: nat, j: System, r: Round): System
    requires Daemon.Configured(config)
  {
    match r
    case DeviceTurn(now, usb, arrived, pressed) =>
      var o := Stick.Turn(j.stick, DeviceInput(j, now, usb, arrived, pressed));
      var sample, button := Sampled(j, now, arrived, pressed), Pressing(j, now, arrived, pressed).0;
      var k := j.(stick := o.state, samples := j.samples + [sample]);
      if !o.request then k
      else
        var origin := Origin(o.state.mode, o.state.session, j.world.opening, RequestId(j, r));
        var since := if button.pressedAt.Some? then button.pressedAt.value else now;
        var press := Button.Presses(j.start, j.samples + [sample]);
        k.(asked := j.asked + [Asked(origin, j.boots, press, now, since, sample.longPress)])
    case DaemonTurn(input, arrived) =>
      var i := DaemonInput(j, input, arrived);
      var t := Daemon.Turn(config, interval, j.daemon, i);
      if !j.running then j
      else j.(daemon := if t.ending == Daemon.Exit then Daemon.Closed(t.loop) else t.loop,
              running := t.ending != Daemon.Exit, handled := j.handled + HandledIn(config, interval, j.daemon, i))
    case DaemonStarts(now) =>
      j.(daemon := Daemon.Fresh(config, j.daemon.session.nonce, now), running := true)
    case DeviceResets(now) =>
      j.(stick := Stick.Booted(now), boots := j.boots + 1, start := now, samples := [])
    case LineMoves(_) => j
  }

  /** The number under which the device queues the request of a turn: behind its Hellos. */
  function RequestId(j: System, r: Round): nat
    requires r.DeviceTurn?
  {
    var i := DeviceInput(j, r.now, r.usb, r.arrived, r.pressed);
    Exec(j.world, TurnRefinement.ListenActs(i)).nextId
  }

  function After(config: Config, interval: nat, j: System, r: Round): System
    requires Daemon.Configured(config)
  {
    LoopsAfter(config, interval, j, r).(world := Exec(j.world, RoundActs(config, interval, j, r)))
  }

  function Begun(config: Config, nonce: Nonce, start: int): System
    requires Daemon.Configured(config)
  {
    System(Stick.Booted(start), 0, start, [], Daemon.Fresh(config, nonce, start), true, Start(nonce, start), [], 0)
  }

  function Run(config: Config, interval: nat, j: System, rounds: seq<Round>): System
    requires Daemon.Configured(config)
    decreases |rounds|
  {
    if rounds == [] then j
    else After(config, interval, Run(config, interval, j, rounds[..|rounds| - 1]), rounds[|rounds| - 1])
  }

  // ---------------------------------------------------------------- where requests come from

  ghost predicate KnownLine(line: Line, known: set<Origin>) {
    IsRequest(line) ==> line.sent.origin in known
  }

  /** Every request on its way or handed over is one of these. */
  ghost predicate Known(l: World, known: set<Origin>)
  {
    && (forall k :: 0 <= k < |l.queue| ==> KnownLine(l.queue[k], known))
    && (forall k :: 0 <= k < |l.toHost| ==> KnownLine(l.toHost[k], known))
    && (forall k :: 0 <= k < |l.handed| ==> l.handed[k].origin in known)
  }

  lemma KnownGrows(l: World, known: set<Origin>, more: set<Origin>)
    requires Known(l, known) && known <= more
    ensures Known(l, more)
  {
  }

  lemma QueuedIsKnown(l: World, m: DeviceMessage, known: set<Origin>)
    requires Known(l, known)
    requires m.ShutdownRequested? ==> Origin(l.stick.mode, l.stick.session, l.opening, l.nextId) in known
    ensures Known(Queued(l, m), known)
  {
  }

  lemma MovedIsKnown(l: World, o: Stick.Outcome, known: set<Origin>)
    requires Known(l, known)
    requires o.request ==> Origin(o.state.mode, o.state.session, l.opening, l.nextId) in known
    ensures Known(Moved(l, o), known)
  {
    var m := l.(stick := o.state);
    assert Known(m, known);
    if o.request {
      QueuedIsKnown(m, ShutdownRequested, known);
    } else if o.hellos != [] {
      QueuedIsKnown(m, Hello(VERSION, o.hellos[0]), known);
    }
  }

  lemma ReadIsKnown(l: World, known: set<Origin>)
    requires Known(l, known) && l.toHost != []
    ensures Known(ReadOne(l), known)
  {
    assert KnownLine(l.toHost[0], known);
    var r := ReadOne(l);
    forall k | 0 <= k < |r.toHost| ensures KnownLine(r.toHost[k], known) {
      assert r.toHost[k] == l.toHost[k + 1];
    }
  }

  /** Only the button makes requests. */
  lemma NextIsKnown(l: World, a: Act, known: set<Origin>)
    requires Known(l, known)
    requires a.Push? ==>
      var o := Stick.Press(l.stick, a.now, a.action, a.held);
      o.request ==> Origin(o.state.mode, o.state.session, l.opening, l.nextId) in known
    ensures Known(Next(l, a), known)
  {
    match a
    case Reboot(now) =>
      var booted := l.(stick := Stick.Booted(now), queue := []);
      assert Known(booted, known);
      QueuedIsKnown(booted, Hello(VERSION, None), known);
    case Tick(now) => MovedIsKnown(l, Stick.HelloTick(l.stick, now), known);
    case Take(now) =>
      if l.toStick != [] {
        var m := l.(toStick := l.toStick[1..]);
        assert Known(m, known);
        TakeMakesNoRequest(l.stick, now, l.toStick[0]);
        MovedIsKnown(m, Stick.Receive(l.stick, now, l.toStick[0]), known);
      }
    case Grow(_) =>
    case Push(now, action, held) => MovedIsKnown(l, Stick.Press(l.stick, now, action, held), known);
    case Time(_, _) =>
    case Emit => EmitIsKnown(l, known);
    case Open(_) =>
    case Close =>
    case Greet =>
    case Tell(_) =>
    case Read =>
      if l.host.open && l.toHost != [] {
        ReadIsKnown(l, known);
      }
    case LoseToHost(i) => LossIsKnown(l, i, known);
    case BreakToHost(_) =>
    case LoseToStick(_) =>
    case BreakToStick(_, _) =>
  }

  lemma TakeMakesNoRequest(s: Stick.State, now: int, frame: Stick.HostFrame)
    ensures !Stick.Receive(s, now, frame).request
  {
  }

  lemma EmitIsKnown(l: World, known: set<Origin>)
    requires Known(l, known)
    ensures Known(Next(l, Emit), known)
  {
    var e := Next(l, Emit);
    if l.queue != [] {
      forall k | 0 <= k < |e.queue| ensures KnownLine(e.queue[k], known) {
        assert e.queue[k] == l.queue[k + 1];
      }
    }
  }

  lemma LossIsKnown(l: World, i: nat, known: set<Origin>)
    requires Known(l, known)
    ensures Known(Next(l, LoseToHost(i)), known)
  {
    var e := Next(l, LoseToHost(i));
    if i < |l.toHost| {
      forall k | 0 <= k < |e.toHost| ensures KnownLine(e.toHost[k], known) {
        assert e.toHost[k] == if k < i then l.toHost[k] else l.toHost[k + 1];
      }
    }
  }

  ghost predicate NoPush(acts: seq<Act>) {
    forall k :: 0 <= k < |acts| ==> !acts[k].Push?
  }

  lemma {:induction false} ExecIsKnown(l: World, acts: seq<Act>, known: set<Origin>)
    requires Known(l, known) && NoPush(acts)
    ensures Known(Exec(l, acts), known)
    decreases |acts|
  {
    if acts != [] {
      ExecIsKnown(l, acts[..|acts| - 1], known);
      NextIsKnown(Exec(l, acts[..|acts| - 1]), acts[|acts| - 1], known);
    }
  }

  lemma {:induction false} ReadsPushNothing(s: Daemon.Loop, now: int, frames: seq<Result<DeviceMessage>>,
                                            handlings: seq<Daemon.Handling>)
    ensures NoPush(ReadActs(s, now, frames, handlings))
    decreases |frames|
  {
    if frames != [] {
      if !s.session.synchronized {
        ReadsPushNothing(s.(session := s.session.(synchronized := true)), now, frames[1..], handlings);
      } else if HandsOver(s.session, frames[0]) {
        ReadsPushNothing(s, now, frames[1..], Daemon.Others(handlings));
      } else {
        ReadsPushNothing(Daemon.Heard(s, now, frames[0]), now, frames[1..], handlings);
      }
    }
  }

  lemma TalkPushesNothing(config: Config, interval: nat, s: Daemon.Loop, i: Daemon.Input)
    ensures NoPush(TalkActs(config, interval, s, i))
  {
    var w := Daemon.WritePhases(config, interval, s, i);
    ReadsPushNothing(w.loop, i.now, i.frames, i.handlings);
    assert NoPush(WriteActs(w.written));
  }

  lemma DaemonPushesNothing(config: Config, interval: nat, s: Daemon.Loop, i: Daemon.Input)
    ensures NoPush(TurnActs(config, interval, s, i))
  {
    TalkPushesNothing(config, interval, Daemon.Ready(s, i), i);
  }

  // ---------------------------------------------------------------- the device's turn

  function Origins(asked: seq<Asked>): set<Origin> {
    set k | 0 <= k < |asked| :: asked[k].origin
  }

  /** The device's button makes the request of its turn, in the state the turn ends in. */
  lemma TurnRequest(s: Stick.State, i: Stick.Input)
    ensures var aged := Stick.Age(Stick.ReceiveAll(Stick.HelloTick(s, i.now).state, i.now, i.inbox).state, i.now);
      var pressed, o := Stick.Press(aged, i.now, i.action, i.held), Stick.Turn(s, i);
      && pressed.request == o.request
      && pressed.state.mode == o.state.mode && pressed.state.session == o.state.session
      && (o.request ==> i.action == Some(Stick.LongPress))
  {
    var aged := Stick.Age(Stick.ReceiveAll(Stick.HelloTick(s, i.now).state, i.now, i.inbox).state, i.now);
    Stick.TimersTouchOnlyTheShutdownScreen(Stick.Press(aged, i.now, i.action, i.held).state, i.now, i.usb);
  }

  lemma ListeningPushesNothing(i: Stick.Input)
    ensures NoPush(TurnRefinement.ListenActs(i))
  {
  }

  lemma DeviceTurnIsKnown(l: World, i: Stick.Input, known: set<Origin>)
    requires Known(l, known) && |i.inbox| <= |l.toStick| && i.inbox == l.toStick[..|i.inbox|]
    requires var o := Stick.Turn(l.stick, i);
      o.request ==>
        Origin(o.state.mode, o.state.session, l.opening, Exec(l, TurnRefinement.ListenActs(i)).nextId) in known
    ensures Known(Exec(l, TurnRefinement.TurnActs(i)), known)
  {
    var listening, push := TurnRefinement.ListenActs(i), Push(i.now, i.action, i.held);
    var heard := Exec(l, listening);
    ListeningPushesNothing(i);
    ExecIsKnown(l, listening, known);
    TurnRefinement.ListenActsShow(l, i);
    TurnRequest(l.stick, i);
    NextIsKnown(heard, push, known);
    ExecAppend(l, listening, push);
    NextIsKnown(Next(heard, push), Time(i.now, i.usb), known);
    ExecAppend(l, listening + [push], Time(i.now, i.usb));
  }

  // ---------------------------------------------------------------- what every round keeps

  /** The loops and the world they move are in step, every request comes from the device's loop,
      and every such request from a press held for the hold time. */
  ghost predicate InStep(j: System)
  {
    && j.world.stick == j.stick
    && Agrees(j.world.host, j.daemon.session)
    && |j.world.handed| == j.handled
    && Known(j.world, Origins(j.asked))
    && AllHeld(j.asked)
    && PressesApart(j.asked, j.boots, Button.Actions(j.start, j.samples))
  }

  lemma OriginsGrow(asked: seq<Asked>, a: Asked)
    ensures Origins(asked + [a]) == Origins(asked) + {a.origin}
  {
    var more := asked + [a];
    assert forall k :: 0 <= k < |asked| ==> more[k] == asked[k];
    assert more[|asked|] == a;
    forall o | o in Origins(asked) + {a.origin} ensures o in Origins(more) {
      if o in Origins(asked) {
        var k :| 0 <= k < |asked| && asked[k].origin == o;
        assert more[k].origin == o;
      }
    }
  }

  ghost predicate AllHeld(asked: seq<Asked>) {
    forall k :: 0 <= k < |asked| ==> asked[k].at - asked[k].since >= asked[k].hold
  }

  // ---------------------------------------------------------------- one request for each press

  /** This action of the button is the long press behind the request. */
  predicate IsActionOf(t: Button.Taken, a: Asked) {
    t.action == Stick.LongPress && t.press == a.press && t.at == a.at && t.since == a.since && t.longPress == a.hold
  }

  /** A request since the last reset is of the press of its number. */
  ghost predicate Belongs(a: Asked, boots: nat, actions: seq<Button.Taken>)
  {
    && a.boot <= boots
    && (a.boot == boots ==> 1 <= a.press <= |actions| && IsActionOf(actions[a.press - 1], a))
  }

  predicate Earlier(a: Asked, b: Asked) {
    a.boot < b.boot || (a.boot == b.boot && a.press < b.press)
  }

  /** Every request belongs to a press, and no two to the same. */
  ghost predicate PressesApart(asked: seq<Asked>, boots: nat, actions: seq<Button.Taken>)
  {
    && (forall k :: 0 <= k < |asked| ==> Belongs(asked[k], boots, actions))
    && (forall i, k :: 0 <= i < k < |asked| ==> Earlier(asked[i], asked[k]))
  }

  lemma StillApart(asked: seq<Asked>, boots: nat, actions: seq<Button.Taken>, more: seq<Button.Taken>)
    requires PressesApart(asked, boots, actions)
    ensures PressesApart(asked, boots, actions + more)
    ensures PressesApart(asked, boots + 1, [])
  {
    forall k | 0 <= k < |asked| ensures Belongs(asked[k], boots, actions + more) {
      assert Belongs(asked[k], boots, actions);
    }
    forall k | 0 <= k < |asked| ensures Belongs(asked[k], boots + 1, []) {
      assert Belongs(asked[k], boots, actions);
    }
  }

  lemma OneMoreApart(asked: seq<Asked>, boots: nat, actions: seq<Button.Taken>, t: Button.Taken, a: Asked)
    requires PressesApart(asked, boots, actions)
    requires IsActionOf(t, a) && a.boot == boots && a.press == |actions| + 1
    ensures PressesApart(asked + [a], boots, actions + [t])
  {
    StillApart(asked, boots, actions, [t]);
    forall k | 0 <= k < |asked| ensures Earlier(asked[k], a) {
      assert Belongs(asked[k], boots, actions);
    }
  }

  /** One more sample, and the action it yields, the first of a press of its own. */
  lemma OneMoreSample(start: int, samples: seq<Button.Sample>, s: Button.Sample)
    ensures var before, after := Button.Actions(start, samples), Button.Actions(start, samples + [s]);
      var (b, action) := Button.Update(Button.After(start, samples), s);
      && |after| == |before| + (if action.Some? then 1 else 0) && after[..|before|] == before
      && (action == Some(Stick.LongPress) ==>
            var t := after[|before|];
            && t.action == Stick.LongPress && t.at == s.now && t.longPress == s.longPress
            && t.press == |before| + 1 == Button.Presses(start, samples + [s])
            && b.pressedAt == Some(t.since) && t.at - t.since >= t.longPress)
  {
    assert (samples + [s])[..|samples|] == samples;
    Button.OneActionPerPress(start, samples + [s]);
    if Button.Update(Button.After(start, samples), s).1 == Some(Stick.LongPress) {
      Button.RequestIsHeld(Button.After(start, samples), s);
    }
  }

  /** What the device's turn adds to the requests. */
  lemma DeviceAsks(config: Config, interval: nat, j: System, r: Round)
    requires Daemon.Configured(config) && r.DeviceTurn? && AllHeld(j.asked)
    requires PressesApart(j.asked, j.boots, Button.Actions(j.start, j.samples))
    ensures var i, k := DeviceInput(j, r.now, r.usb, r.arrived, r.pressed), LoopsAfter(config, interval, j, r);
      var o := Stick.Turn(j.stick, i);
      && k.stick == o.state && k.daemon == j.daemon && k.handled == j.handled && AllHeld(k.asked)
      && PressesApart(k.asked, k.boots, Button.Actions(k.start, k.samples))
      && Origins(j.asked) <= Origins(k.asked)
      && (o.request ==>
            Origin(o.state.mode, o.state.session, j.world.opening, RequestId(j, r)) in Origins(k.asked))
  {
    var i, k := DeviceInput(j, r.now, r.usb, r.arrived, r.pressed), LoopsAfter(config, interval, j, r);
    var sample := Sampled(j, r.now, r.arrived, r.pressed);
    var before, after := Button.Actions(j.start, j.samples), Button.Actions(k.start, k.samples);
    OneMoreSample(j.start, j.samples, sample);
    TurnRequest(j.stick, i);
    assert after == before + after[|before|..];
    if Stick.Turn(j.stick, i).request {
      var a := k.asked[|j.asked|];
      assert k.asked == j.asked + [a] && after[|before|..] == [after[|before|]];
      OriginsGrow(j.asked, a);
      OneMoreApart(j.asked, j.boots, before, after[|before|], a);
    } else {
      StillApart(j.asked, j.boots, before, after[|before|..]);
    }
  }

  lemma DeviceTurnKeepsInStep(config: Config, interval: nat, j: System, r: Round)
    requires Daemon.Configured(config) && InStep(j) && r.DeviceTurn?
    ensures InStep(After(config, interval, j, r))
  {
    var i, k := DeviceInput(j, r.now, r.usb, r.arrived, r.pressed), LoopsAfter(config, interval, j, r);
    DeviceAsks(config, interval, j, r);
    KnownGrows(j.world, Origins(j.asked), Origins(k.asked));
    TurnRefinement.TurnIsARun(j.world, i);
    DeviceTurnIsKnown(j.world, i, Origins(k.asked));
  }

  lemma ClosesInStep(l: World, s: Daemon.Loop)
    ensures Agrees(Next(l, Close).host, Daemon.Closed(s).session) && Next(l, Close).handed == l.handed
    ensures Next(l, Close).stick == l.stick
  {
  }

  /** The daemon's turn moves the world as it moves the loop, and makes no request. */
  lemma DaemonTurnMoves(config: Config, interval: nat, s: Daemon.Loop, i: Daemon.Input, l: World, known: set<Origin>)
    requires Agrees(l.host, s.session) && Sees(i.frames, l) && Known(l, known)
    requires !s.session.open && i.opens.Some? ==> i.opens.value !in l.used
    ensures var t, e := Daemon.Turn(config, interval, s, i), Exec(l, TurnActs(config, interval, s, i));
      && Agrees(e.host, t.loop.session) && e.stick == l.stick && Known(e, known)
      && |e.handed| == |l.handed| + HandledIn(config, interval, s, i)
  {
    TurnIsARun(config, interval, s, i, l);
    DaemonPushesNothing(config, interval, s, i);
    ExecIsKnown(l, TurnActs(config, interval, s, i), known);
  }

  /** An exit closes the port behind the turn. */
  lemma ExitMoves(l: World, acts: seq<Act>, s: Daemon.Loop, exits: bool, known: set<Origin>)
    requires Agrees(Exec(l, acts).host, s.session) && Known(Exec(l, acts), known)
    ensures var m, e := Exec(l, acts), Exec(l, acts + if exits then [Close] else []);
      && Agrees(e.host, (if exits then Daemon.Closed(s) else s).session)
      && Known(e, known) && e.stick == m.stick && e.handed == m.handed
  {
    if exits {
      ExecAppend(l, acts, Close);
      ClosesInStep(Exec(l, acts), s);
      NextIsKnown(Exec(l, acts), Close, known);
    } else {
      assert acts + [] == acts;
    }
  }

  lemma DaemonTurnKeepsInStep(config: Config, interval: nat, j: System, r: Round)
    requires Daemon.Configured(config) && InStep(j) && r.DaemonTurn?
    ensures InStep(After(config, interval, j, r))
  {
    if j.running {
      var i := DaemonInput(j, r.input, r.arrived);
      DaemonTurnMoves(config, interval, j.daemon, i, j.world, Origins(j.asked));
      var t := Daemon.Turn(config, interval, j.daemon, i);
      ExitMoves(j.world, TurnActs(config, interval, j.daemon, i), t.loop, t.ending == Daemon.Exit, Origins(j.asked));
    }
  }

  lemma OneAct(l: World, a: Act)
    ensures Exec(l, [a]) == Next(l, a)
  {
    assert [a][..0] == [];
  }

  lemma RoundKeepsInStep(config: Config, interval: nat, j: System, r: Round)
    requires Daemon.Configured(config) && InStep(j)
    ensures InStep(After(config, interval, j, r))
  {
    match r
    case DeviceTurn(_, _, _, _) => DeviceTurnKeepsInStep(config, interval, j, r);
    case DaemonTurn(_, _) => DaemonTurnKeepsInStep(config, interval, j, r);
    case DaemonStarts(_) => SimpleRoundKeepsInStep(config, interval, j, r, Close);
    case DeviceResets(now) => SimpleRoundKeepsInStep(config, interval, j, r, Reboot(now));
    case LineMoves(act) =>
      if OnTheLine(act) {
        SimpleRoundKeepsInStep(config, interval, j, r, act);
      }
  }

  /** A start of the daemon, a reset of the device, or a step of the lines. */
  predicate IsSimple(r: Round, a: Act) {
    match r
    case DaemonStarts(_) => a == Close
    case DeviceResets(now) => a == Reboot(now)
    case LineMoves(act) => a == act && OnTheLine(act)
    case _ => false
  }

  lemma SimpleRoundMoves(config: Config, interval: nat, j: System, r: Round, a: Act)
    requires Daemon.Configured(config) && IsSimple(r, a) && j.world.stick == j.stick
    requires Agrees(j.world.host, j.daemon.session)
    ensures var k, w := LoopsAfter(config, interval, j, r), Next(j.world, a);
      && w.stick == k.stick && Agrees(w.host, k.daemon.session) && w.handed == j.world.handed
      && k.handled == j.handled && k.asked == j.asked
      && (if r.DeviceResets? then k.boots == j.boots + 1 && k.samples == []
          else k.boots == j.boots && k.start == j.start && k.samples == j.samples)
  {
  }

  lemma SimpleRoundKeepsInStep(config: Config, interval: nat, j: System, r: Round, a: Act)
    requires Daemon.Configured(config) && InStep(j) && IsSimple(r, a)
    ensures InStep(After(config, interval, j, r))
  {
    OneAct(j.world, a);
    SimpleRoundMoves(config, interval, j, r, a);
    NextIsKnown(j.world, a, Origins(j.asked));
    StillApart(j.asked, j.boots, Button.Actions(j.start, j.samples), []);
  }

  lemma BegunInStep(config: Config, nonce: Nonce, start: int)
    requires Daemon.Configured(config)
    ensures InStep(Begun(config, nonce, start))
  {
  }

  /** Everything the two loops do together is a run of the link. */
  lemma {:induction false} RunIsALinkRun(config: Config, interval: nat, nonce: Nonce, start: int, rounds: seq<Round>)
    returns (acts: seq<Act>)
    requires Daemon.Configured(config)
    ensures var j := Run(config, interval, Begun(config, nonce, start), rounds);
      InStep(j) && j.world == Exec(Start(nonce, start), acts)
    decreases |rounds|
  {
    if rounds == [] {
      acts := [];
      BegunInStep(config, nonce, start);
    } else {
      var init, r := rounds[..|rounds| - 1], rounds[|rounds| - 1];
      acts := RunIsALinkRun(config, interval, nonce, start, init);
      var j := Run(config, interval, Begun(config, nonce, start), init);
      RoundKeepsInStep(config, interval, j, r);
      ExecConcat(Start(nonce, start), acts, RoundActs(config, interval, j, r));
      acts := acts + RoundActs(config, interval, j, r);
    }
  }

  /** The device's loop queued this request, at a press of the button held for the hold time. */
  ghost predicate AskedFor(asked: seq<Asked>, origin: Origin) {
    exists k :: 0 <= k < |asked| && asked[k].origin == origin && asked[k].at - asked[k].since >= asked[k].hold
  }

  /** Queued by the connected device's loop, in the session and opening it is handled in. */
  ghost predicate Justified(h: Handover, asked: seq<Asked>) {
    && h.origin.mode == Stick.Connected && h.origin.session == Some(h.nonce) && h.origin.opening == h.opening
    && AskedFor(asked, h.origin)
  }

  lemma HandedIsAskedFor(j: System, i: nat)
    requires InStep(j) && i < |j.world.handed|
    ensures AskedFor(j.asked, j.world.handed[i].origin)
  {
    assert j.world.handed[i].origin in Origins(j.asked);
    var k :| 0 <= k < |j.asked| && j.asked[k].origin == j.world.handed[i].origin;
    assert j.asked[k].at - j.asked[k].since >= j.asked[k].hold;
  }

  lemma LinkRunIsJustified(j: System, nonce: Nonce, start: int, acts: seq<Act>)
    requires InStep(j) && j.world == Exec(Start(nonce, start), acts)
    ensures forall i :: 0 <= i < |j.world.handed| ==> Justified(j.world.handed[i], j.asked)
    ensures forall i, k :: 0 <= i < k < |j.world.handed| ==> j.world.handed[i].origin.id < j.world.handed[k].origin.id
  {
    NoReplay(nonce, start, acts);
    forall i | 0 <= i < |j.world.handed| ensures Justified(j.world.handed[i], j.asked) {
      HandedIsAskedFor(j, i);
    }
  }

  /** No replay, of the loops themselves: over every interleaving of their turns with resets,
      restarts and faults, the requests that the daemon's loop handles are, one for one, requests
      that the device's loop queued while connected, with the nonce of the port session they are
      handled in as its own session, during that same opening, at a press of the button held for
      the hold time; they are handled in order and none twice. */
  lemma LoopsNeverReplay(config: Config, interval: nat, nonce: Nonce, start: int, rounds: seq<Round>)
    requires Daemon.Configured(config)
    ensures var j := Run(config, interval, Begun(config, nonce, start), rounds); var handed := j.world.handed;
      && |handed| == j.handled
      && (forall i :: 0 <= i < |handed| ==> Justified(handed[i], j.asked))
      && (forall i, k :: 0 <= i < k < |handed| ==> handed[i].origin.id < handed[k].origin.id)
  {
    var acts := RunIsALinkRun(config, interval, nonce, start, rounds);
    LinkRunIsJustified(Run(config, interval, Begun(config, nonce, start), rounds), nonce, start, acts);
  }

  predicate SamePress(a: Asked, b: Asked) {
    a.boot == b.boot && a.press == b.press
  }

  /** The presses behind two requests that were handled. */
  ghost predicate PressesOf(a: Asked, b: Asked, asked: seq<Asked>, g: Handover, h: Handover) {
    a in asked && a.origin == g.origin && b in asked && b.origin == h.origin
  }

  /** Each request that the device's loop has queued is of a press of its own: those since the last
      reset are the long presses of their numbers, and no two are of the same press. So no two
      requests that the daemon's loop handles are of the same press either. */
  lemma OneRequestPerPress(config: Config, interval: nat, nonce: Nonce, start: int, rounds: seq<Round>)
    requires Daemon.Configured(config)
    ensures var j := Run(config, interval, Begun(config, nonce, start), rounds); var handed := j.world.handed;
      && PressesApart(j.asked, j.boots, Button.Actions(j.start, j.samples))
      && (forall i, k :: 0 <= i < k < |j.asked| ==> !SamePress(j.asked[i], j.asked[k]))
      && (forall i, k, a, b :: 0 <= i < k < |handed| && PressesOf(a, b, j.asked, handed[i], handed[k]) ==>
            !SamePress(a, b))
  {
    var acts := RunIsALinkRun(config, interval, nonce, start, rounds);
    var j := Run(config, interval, Begun(config, nonce, start), rounds);
    LinkRunIsJustified(j, nonce, start, acts);
    PressesDiffer(j.asked, j.boots, Button.Actions(j.start, j.samples), j.world.handed);
  }

  lemma PressesDiffer(asked: seq<Asked>, boots: nat, actions: seq<Button.Taken>, handed: seq<Handover>)
    requires PressesApart(asked, boots, actions)
    requires forall i, k :: 0 <= i < k < |handed| ==> handed[i].origin.id < handed[k].origin.id
    ensures forall i, k :: 0 <= i < k < |asked| ==> !SamePress(asked[i], asked[k])
    ensures forall i, k, a, b :: 0 <= i < k < |handed| && PressesOf(a, b, asked, handed[i], handed[k]) ==>
      !SamePress(a, b)
  {
    forall i, k | 0 <= i < k < |asked| ensures !SamePress(asked[i], asked[k]) {
      assert Earlier(asked[i], asked[k]);
    }
    forall i, k, a, b | 0 <= i < k < |handed| && PressesOf(a, b, asked, handed[i], handed[k])
      ensures !SamePress(a, b)
    {
      var m :| 0 <= m < |asked| && asked[m] == a;
      var n :| 0 <= n < |asked| && asked[n] == b;
      assert a.origin.id != b.origin.id;
    }
  }

  /** Agreement, of the loops themselves. */
  lemma LoopsAgree(config: Config, interval: nat, nonce: Nonce, start: int, rounds: seq<Round>)
    requires Daemon.Configured(config)
    ensures var j := Run(config, interval, Begun(config, nonce, start), rounds);
      j.daemon.session.open && j.daemon.session.established ==>
        j.stick.session == None || j.stick.session == Some(j.daemon.session.nonce)
  {
    var acts := RunIsALinkRun(config, interval, nonce, start, rounds);
    Agreement(nonce, start, acts);
  }
}
