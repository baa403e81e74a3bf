/** The device's main loop: the daemon session, the page shown, and the shutdown screens. */
module Stick {
  import opened Common
  import opened Protocol

  datatype Mode = Waiting | Connected | Stale | Incompatible | ShuttingDown

  datatype ButtonAction = NextScreen | LongPress

  datatype ShutdownDisplay =
    | Accepted
    | GuestsLeft(total: nat, remaining: nat)
    | AllStopped
    | HostPoweroff(spinner: nat, remaining: nat)
    | ReportingLost(remaining: nat)
    | ConnectionLost(remaining: nat)
    | Failed(remaining: nat)

  const LINK_TIMEOUT := 15_000
  const HELLO_INTERVAL := 1_000
  const DOUBLE_CLICK_WINDOW := 200
  const SHUTDOWN_SPINNER_INTERVAL := 250
  const SHUTDOWN_REPORT_TIMEOUT := 3_000
  const SHUTDOWN_USB_LOST_CONFIRM := 2_000

  /** What one received frame decodes to on the device. */
  datatype HostFrame = Message(message: HostMessage) | ForeignVersion | Undecodable

  /** Messages as the frames that carry them. */
  function Framed(messages: seq<HostMessage>): seq<HostFrame> {
    seq(|messages|, k requires 0 <= k < |messages| => Message(messages[k]))
  }

  /** The loop's variables. Times are milliseconds. */
  datatype State = State(
    mode: Mode, session: Option<Nonce>, lastUpdate: Option<int>, snapshot: Option<HealthSnapshot>,
    page: nat, display: DisplayConfig, shutdown: ShutdownDisplay, usbLostSince: Option<int>,
    lastSpinner: int, lastHello: Option<int>, lastClick: Option<int>, showAbout: bool, animating: bool)

  const DEFAULT_DISPLAY := DisplayConfig(3_000, 200, [], [DisplayView("OVERVIEW", Overview)])

  function Booted(now: int): State {
    State(Waiting, None, None, None, 0, DEFAULT_DISPLAY, Accepted, None, now, None, None, false, false)
  }

  function PageCount(s: State): (n: nat)
    ensures 1 <= n
  {
    if s.display.pages == [] then 1 else |s.display.pages|
  }

  function Remaining(d: ShutdownDisplay): nat {
    match d
    case GuestsLeft(_, remaining) => remaining
    case HostPoweroff(_, remaining) => remaining
    case ReportingLost(remaining) => remaining
    case ConnectionLost(remaining) => remaining
    case Failed(remaining) => remaining
    case Accepted => 0
    case AllStopped => 0
  }

  /** A state and the sessions acknowledged in the Hellos, and the requests, it put in the queue. */
  datatype Outcome = Outcome(state: State, hellos: seq<Option<Nonce>>, request: bool)

  function HelloTick(s: State, now: int): Outcome
  {
    if s.mode != Connected && s.mode != ShuttingDown
       && (s.lastHello == None || now - s.lastHello.value >= HELLO_INTERVAL)
    then Outcome(s.(lastHello := Some(now)), [s.session], false)
    else Outcome(s, [], false)
  }

  function Progressed(s: State, now: int, phase: ShutdownPhase, total: nat, remaining: nat): State
  {
    var s' := s.(lastUpdate := Some(now), usbLostSince := None, mode := ShuttingDown);
    match phase
    case PreparingGuests => s'.(shutdown := Accepted)
    case StoppingGuests => s'.(shutdown := GuestsLeft(total, remaining))
    case GuestsStopped => s'.(shutdown := AllStopped)
    case PoweringOff => s'.(shutdown := HostPoweroff(0, remaining), lastSpinner := now)
  }

  /** Everything but a challenge; it counts only within an acknowledged session. */
  function SessionData(s: State, now: int, m: HostMessage): State
  {
    match m
    case Snapshot(snapshot) => s.(lastUpdate := Some(now), snapshot := Some(snapshot), mode := Connected)
    case ShutdownAccepted => Progressed(s, now, PreparingGuests, 0, 0)
    case ShutdownProgress(phase, total, remaining) => Progressed(s, now, phase, total, remaining)
    case ShutdownFailed(remaining) => s.(mode := ShuttingDown, shutdown := Failed(remaining))
    case Display(display) =>
      var s' := s.(display := display);
      s'.(page := s.page % PageCount(s'))
    case Network(_) => s
    case Challenge(_, _) => s
  }

  function Receive(s: State, now: int, frame: HostFrame): Outcome
  {
    match frame
    case Undecodable => Outcome(s, [], false)
    case ForeignVersion => Outcome(s.(mode := Incompatible), [], false)
    case Message(m) =>
      if m.Challenge? then
        Outcome(s.(mode := Waiting, lastUpdate := None, session := Some(m.session)), [Some(m.session)], false)
      else if s.session == None then
        Outcome(s, [], false)
      else
        Outcome(SessionData(s, now, m), [], false)
  }

  function Age(s: State, now: int): State
  {
    if s.mode == Connected && s.lastUpdate.Some? && now - s.lastUpdate.value >= LINK_TIMEOUT
    then s.(mode := Stale, session := None)
    else s
  }

  /** `held` is how long an unfinished press lasts so far. */
  function Press(s: State, now: int, action: Option<ButtonAction>, held: Option<int>): Outcome
  {
    match action
    case Some(NextScreen) =>
      var s' :=
        if s.animating then s
        else if s.showAbout then s.(showAbout := false, lastClick := None)
        else if s.lastClick.Some? && now - s.lastClick.value <= DOUBLE_CLICK_WINDOW then
          s.(showAbout := true, lastClick := None)
        else s.(page := (s.page + 1) % PageCount(s), lastClick := Some(now));
      Outcome(s'.(animating := false), [], false)
    case Some(LongPress) =>
      Outcome(s.(lastClick := None, animating := false), [], s.mode == Connected)
    case None =>
      var animating := s.mode == Connected && held.Some? && held.value >= s.display.shutdownAnimationDelayMs;
      Outcome(s.(animating := animating), [], false)
  }

  /** The screens the device shows on its own while the host powers off. */
  function WatchUsb(s: State, now: int, usb: bool): State
  {
    if s.mode == ShuttingDown && !s.shutdown.Failed? && !s.shutdown.ConnectionLost? then
      if usb then s.(usbLostSince := None)
      else
        var since := if s.usbLostSince.Some? then s.usbLostSince.value else now;
        var s' := s.(usbLostSince := Some(since));
        if now - since >= SHUTDOWN_USB_LOST_CONFIRM
        then s'.(shutdown := ConnectionLost(Remaining(s.shutdown)))
        else s'
    else if s.mode != ShuttingDown then s.(usbLostSince := None)
    else s
  }

  function WatchReports(s: State, now: int): State
  {
    if s.mode == ShuttingDown
       && !s.shutdown.ReportingLost? && !s.shutdown.ConnectionLost? && !s.shutdown.Failed?
       && s.lastUpdate.Some? && now - s.lastUpdate.value >= SHUTDOWN_REPORT_TIMEOUT
    then s.(shutdown := ReportingLost(Remaining(s.shutdown)))
    else s
  }

  function Spin(s: State, now: int): State
  {
    if s.mode == ShuttingDown && now - s.lastSpinner >= SHUTDOWN_SPINNER_INTERVAL && s.shutdown.HostPoweroff?
    then s.(shutdown := s.shutdown.(spinner := (s.shutdown.spinner + 1) % 4), lastSpinner := now)
    else s
  }

  function ShutdownTimers(s: State, now: int, usb: bool): State {
    Spin(WatchReports(WatchUsb(s, now, usb), now), now)
  }

  function ReceiveAll(s: State, now: int, inbox: seq<HostFrame>): Outcome
    decreases |inbox|
  {
    if inbox == [] then Outcome(s, [], false)
    else
      var before := ReceiveAll(s, now, inbox[..|inbox| - 1]);
      var last := Receive(before.state, now, inbox[|inbox| - 1]);
      Outcome(last.state, before.hellos + last.hellos, false)
  }

  /** What the outside world contributes to one turn of the loop. */
  datatype Input = Input(now: int, usb: bool, inbox: seq<HostFrame>, action: Option<ButtonAction>, held: Option<int>)

  function Turn(s: State, i: Input): Outcome
  {
    var greeted := HelloTick(s, i.now);
    var received := ReceiveAll(greeted.state, i.now, i.inbox);
    var pressed := Press(Age(received.state, i.now), i.now, i.action, i.held);
    Outcome(ShutdownTimers(pressed.state, i.now, i.usb), greeted.hellos + received.hellos, pressed.request)
  }

  /** The loop itself, over its own variables. */
  class MainLoop {
    var daemon: Mode
    var daemonSession: Option<Nonce>
    var lastUpdate: Option<int>
    var healthSnapshot: Option<HealthSnapshot>
    var page: nat
    var displayConfig: DisplayConfig
    var shutdownDisplay: ShutdownDisplay
    var shutdownUsbLostSince: Option<int>
    var lastShutdownSpinner: int
    var lastHello: Option<int>
    var lastShortClick: Option<int>
    var showAbout: bool
    var shutdownAnimationActive: bool

    ghost function Abs(): State
      reads this
    {
      State(daemon, daemonSession, lastUpdate, healthSnapshot, page, displayConfig, shutdownDisplay,
            shutdownUsbLostSince, lastShutdownSpinner, lastHello, lastShortClick, showAbout, shutdownAnimationActive)
    }

    constructor (now: int)
      ensures Abs() == Booted(now)
    {
      daemon, daemonSession, lastUpdate, healthSnapshot, page := Waiting, None, None, None, 0;
      displayConfig, shutdownDisplay, shutdownUsbLostSince := DEFAULT_DISPLAY, Accepted, None;
      lastShutdownSpinner, lastHello, lastShortClick := now, None, None;
      showAbout, shutdownAnimationActive := false, false;
    }

    method HandleFrame(now: int, frame: HostFrame) returns (hellos: seq<Option<Nonce>>)
      modifies this
      ensures var o := Receive(old(Abs()), now, frame); Abs() == o.state && hellos == o.hellos
    {
      hellos := [];
      match frame
      case Undecodable =>
      case ForeignVersion => daemon := Incompatible;
      case Message(message) =>
        if message.Challenge? {
          daemon, lastUpdate, daemonSession := Waiting, None, Some(message.session);
          hellos := [daemonSession];
        } else if daemonSession != None {
          HandleSessionData(now, message);
        }
    }

    method HandleSessionData(now: int, message: HostMessage)
      modifies this
      ensures Abs() == SessionData(old(Abs()), now, message)
    {
      match message
      case Snapshot(snapshot) =>
        lastUpdate, healthSnapshot, daemon := Some(now), Some(snapshot), Connected;
      case ShutdownAccepted =>
        lastUpdate, shutdownUsbLostSince := Some(now), None;
        daemon, shutdownDisplay := ShuttingDown, Accepted;
      case ShutdownProgress(phase, total, remaining) =>
        lastUpdate, shutdownUsbLostSince, daemon := Some(now), None, ShuttingDown;
        match phase {
          case PreparingGuests => shutdownDisplay := Accepted;
          case StoppingGuests => shutdownDisplay := GuestsLeft(total, remaining);
          case GuestsStopped => shutdownDisplay := AllStopped;
          case PoweringOff => lastShutdownSpinner, shutdownDisplay := now, HostPoweroff(0, remaining);
        }
      case ShutdownFailed(remaining) =>
        daemon, shutdownDisplay := ShuttingDown, Failed(remaining);
      case Display(config) =>
        displayConfig := config;
        page := page % (if |displayConfig.pages| == 0 then 1 else |displayConfig.pages|);
      case Network(_) =>
      case Challenge(_, _) =>
    }

    method HandleButton(now: int, action: Option<ButtonAction>, held: Option<int>) returns (request: bool)
      modifies this
      ensures var o := Press(old(Abs()), now, action, held); Abs() == o.state && request == o.request
    {
      request := false;
      if action.Some? {
        var canceled := action.value == NextScreen && shutdownAnimationActive;
        if action.value == NextScreen {
          if !canceled {
            if showAbout {
              showAbout, lastShortClick := false, None;
            } else if lastShortClick.Some? && now - lastShortClick.value <= DOUBLE_CLICK_WINDOW {
              showAbout, lastShortClick := true, None;
            } else {
              page := (page + 1) % (if |displayConfig.pages| == 0 then 1 else |displayConfig.pages|);
              lastShortClick := Some(now);
            }
          }
          shutdownAnimationActive := false;
        }
        if action.value == LongPress {
          lastShortClick, shutdownAnimationActive := None, false;
        }
        request := daemon == Connected && !canceled && action.value == LongPress;
      } else if daemon == Connected && held.Some? && held.value >= displayConfig.shutdownAnimationDelayMs {
        shutdownAnimationActive := true;
      } else if shutdownAnimationActive {
        shutdownAnimationActive := false;
      }
    }

    method HandleShutdownTimers(now: int, usb: bool)
      modifies this
      ensures Abs() == ShutdownTimers(old(Abs()), now, usb)
    {
      if daemon == ShuttingDown && !shutdownDisplay.Failed? && !shutdownDisplay.ConnectionLost? {
        if usb {
          shutdownUsbLostSince := None;
        } else {
          if shutdownUsbLostSince.None? {
            shutdownUsbLostSince := Some(now);
          }
          if now - shutdownUsbLostSince.value >= SHUTDOWN_USB_LOST_CONFIRM {
            shutdownDisplay := ConnectionLost(Remaining(shutdownDisplay));
          }
        }
      } else if daemon != ShuttingDown {
        shutdownUsbLostSince := None;
      }
      if daemon == ShuttingDown && !shutdownDisplay.ReportingLost? && !shutdownDisplay.ConnectionLost?
         && !shutdownDisplay.Failed? && lastUpdate.Some? && now - lastUpdate.value >= SHUTDOWN_REPORT_TIMEOUT {
        shutdownDisplay := ReportingLost(Remaining(shutdownDisplay));
      }
      if daemon == ShuttingDown && now - lastShutdownSpinner >= SHUTDOWN_SPINNER_INTERVAL
         && shutdownDisplay.HostPoweroff? {
        shutdownDisplay := HostPoweroff((shutdownDisplay.spinner + 1) % 4, shutdownDisplay.remaining);
        lastShutdownSpinner := now;
      }
    }

    method Greet(now: int) returns (hellos: seq<Option<Nonce>>)
      modifies this
      ensures var o := HelloTick(old(Abs()), now); Abs() == o.state && hellos == o.hellos
    {
      hellos := [];
      if daemon != Connected && daemon != ShuttingDown
         && (lastHello == None || now - lastHello.value >= HELLO_INTERVAL) {
        hellos, lastHello := [daemonSession], Some(now);
      }
    }

    method ReadFrames(now: int, inbox: seq<HostFrame>) returns (hellos: seq<Option<Nonce>>)
      modifies this
      ensures var o := ReceiveAll(old(Abs()), now, inbox); Abs() == o.state && hellos == o.hellos
    {
      hellos := [];
      for k := 0 to |inbox|
        invariant Abs() == ReceiveAll(old(Abs()), now, inbox[..k]).state
        invariant hellos == ReceiveAll(old(Abs()), now, inbox[..k]).hellos
      {
        assert inbox[..k + 1][..k] == inbox[..k];
        var more := HandleFrame(now, inbox[k]);
        hellos := hellos + more;
      }
      assert inbox[..|inbox|] == inbox;
    }

    method CheckAge(now: int)
      modifies this
      ensures Abs() == Age(old(Abs()), now)
    {
      if daemon == Connected && lastUpdate.Some? && now - lastUpdate.value >= LINK_TIMEOUT {
        daemon, daemonSession := Stale, None;
      }
    }

    /** One turn; the caller queues the returned Hellos, then the request. */
    method RunTurn(i: Input) returns (hellos: seq<Option<Nonce>>, request: bool)
      modifies this
      ensures var o := Turn(old(Abs()), i); Abs() == o.state && hellos == o.hellos && request == o.request
    {
      var greeting := Greet(i.now);
      var answers := ReadFrames(i.now, i.inbox);
      CheckAge(i.now);
      request := HandleButton(i.now, i.action, i.held);
      HandleShutdownTimers(i.now, i.usb);
      hellos := greeting + answers;
    }
  }

  /** What every turn keeps. */
  ghost predicate Sound(s: State)
  {
    && (s.mode == Connected || s.mode == ShuttingDown ==> s.session.Some?)
    && (s.mode == Stale ==> s.session == None)
    && (s.mode == Connected ==> s.snapshot.Some? && s.lastUpdate.Some?)
    && s.page < PageCount(s)
  }

  lemma SessionDataKeepsSound(s: State, now: int, m: HostMessage)
    requires Sound(s) && s.session.Some?
    ensures Sound(SessionData(s, now, m)) && SessionData(s, now, m).session == s.session
  {
  }

  lemma ReceiveKeepsSound(s: State, now: int, frame: HostFrame)
    requires Sound(s)
    ensures Sound(Receive(s, now, frame).state)
  {
    if frame.Message? && !frame.message.Challenge? && s.session.Some? {
      SessionDataKeepsSound(s, now, frame.message);
    }
  }

  lemma {:induction false} ReceiveAllKeepsSound(s: State, now: int, inbox: seq<HostFrame>)
    requires Sound(s)
    ensures Sound(ReceiveAll(s, now, inbox).state)
    decreases |inbox|
  {
    if inbox != [] {
      ReceiveAllKeepsSound(s, now, inbox[..|inbox| - 1]);
      ReceiveKeepsSound(ReceiveAll(s, now, inbox[..|inbox| - 1]).state, now, inbox[|inbox| - 1]);
    }
  }

  lemma PressKeepsSound(s: State, now: int, action: Option<ButtonAction>, held: Option<int>)
    requires Sound(s)
    ensures var o := Press(s, now, action, held);
      && Sound(o.state) && o.state.mode == s.mode && o.state.session == s.session
      && (o.request ==> s.mode == Connected && s.session.Some?)
  {
  }

  lemma TimersTouchOnlyTheShutdownScreen(s: State, now: int, usb: bool)
    ensures var t := ShutdownTimers(s, now, usb);
      t == s.(shutdown := t.shutdown, usbLostSince := t.usbLostSince, lastSpinner := t.lastSpinner)
  {
    var u := WatchUsb(s, now, usb);
    assert u == s.(shutdown := u.shutdown, usbLostSince := u.usbLostSince);
    var r := WatchReports(u, now);
    assert r == u.(shutdown := r.shutdown);
  }

  lemma TurnKeepsSound(s: State, i: Input)
    requires Sound(s)
    ensures Sound(Turn(s, i).state)
  {
    var greeted := HelloTick(s, i.now).state;
    assert Sound(greeted);
    ReceiveAllKeepsSound(greeted, i.now, i.inbox);
    var aged := Age(ReceiveAll(greeted, i.now, i.inbox).state, i.now);
    assert Sound(aged);
    PressKeepsSound(aged, i.now, i.action, i.held);
    TimersTouchOnlyTheShutdownScreen(Press(aged, i.now, i.action, i.held).state, i.now, i.usb);
  }

  function Turns(s: State, inputs: seq<Input>): State
    decreases |inputs|
  {
    if inputs == [] then s else Turn(Turns(s, inputs[..|inputs| - 1]), inputs[|inputs| - 1]).state
  }

  /** The device invariants, over every run of the loop from power-up. */
  lemma {:induction false} EveryRunIsSound(start: int, inputs: seq<Input>)
    ensures Sound(Turns(Booted(start), inputs))
    decreases |inputs|
  {
    if inputs != [] {
      EveryRunIsSound(start, inputs[..|inputs| - 1]);
      TurnKeepsSound(Turns(Booted(start), inputs[..|inputs| - 1]), inputs[|inputs| - 1]);
    }
  }

  /** How far the device has given up on the host: live screens, reports lost, link lost. */
  function Rung(d: ShutdownDisplay): nat {
    match d
    case ReportingLost(_) => 1
    case ConnectionLost(_) => 2
    case _ => 0
  }

  ghost predicate Silent(inputs: seq<Input>) {
    forall i :: 0 <= i < |inputs| ==> inputs[i].inbox == []
  }

  /** A turn without a message while powering off is nothing but the three timers. */
  lemma SilentTurn(s: State, i: Input) returns (p: State)
    requires s.mode == ShuttingDown && i.inbox == []
    ensures p.mode == ShuttingDown && p.session == s.session && p.lastUpdate == s.lastUpdate
    ensures p.shutdown == s.shutdown && p.usbLostSince == s.usbLostSince && p.lastSpinner == s.lastSpinner
    ensures Turn(s, i).state == ShutdownTimers(p, i.now, i.usb)
  {
    p := Press(s, i.now, i.action, i.held).state;
  }

  /** Since when the connection has been missing, behind one more look. */
  function LostSince(since: Option<int>, now: int, usb: bool): Option<int> {
    if usb then None else if since.Some? then since else Some(now)
  }

  predicate Confirmed(since: Option<int>, now: int) {
    since.Some? && now - since.value >= SHUTDOWN_USB_LOST_CONFIRM
  }

  predicate Overdue(lastUpdate: Option<int>, now: int) {
    lastUpdate.Some? && now - lastUpdate.value >= SHUTDOWN_REPORT_TIMEOUT
  }

  /** What the timers may do to the screen and to the mark of a lost connection. */
  lemma TimersStep(p: State, now: int, usb: bool)
    requires p.mode == ShuttingDown
    ensures var t := ShutdownTimers(p, now, usb);
      && Remaining(t.shutdown) == Remaining(p.shutdown)
      && Rung(p.shutdown) <= Rung(t.shutdown)
      && (p.shutdown.Failed? <==> t.shutdown.Failed?)
      && (p.shutdown.ConnectionLost? ==> t.shutdown == p.shutdown)
      && (!p.shutdown.Failed? && !p.shutdown.ConnectionLost? ==> t.usbLostSince == LostSince(p.usbLostSince, now, usb))
      && (!p.shutdown.Failed? ==>
            (t.shutdown.ConnectionLost?
             <==> p.shutdown.ConnectionLost? || Confirmed(LostSince(p.usbLostSince, now, usb), now)))
      && (!p.shutdown.Failed? ==>
            (Rung(t.shutdown) >= 1
             <==> Rung(p.shutdown) >= 1 || t.shutdown.ConnectionLost? || Overdue(p.lastUpdate, now)))
  {
    var u := WatchUsb(p, now, usb);
    var r := WatchReports(u, now);
    assert Remaining(u.shutdown) == Remaining(p.shutdown) && Rung(p.shutdown) <= Rung(u.shutdown);
    assert Remaining(r.shutdown) == Remaining(u.shutdown) && Rung(u.shutdown) <= Rung(r.shutdown);
    assert r.usbLostSince == u.usbLostSince && Spin(r, now).usbLostSince == r.usbLostSince;
  }

  /** What one silent turn while powering off may change. */
  ghost predicate SilentlyAfter(s: State, i: Input, t: State)
  {
    && t.mode == ShuttingDown && t.session == s.session && t.lastUpdate == s.lastUpdate
    && Remaining(t.shutdown) == Remaining(s.shutdown)
    && Rung(s.shutdown) <= Rung(t.shutdown)
    && (s.shutdown.Failed? <==> t.shutdown.Failed?)
    && (s.shutdown.ConnectionLost? ==> t.shutdown == s.shutdown)
    && (!s.shutdown.Failed? && !s.shutdown.ConnectionLost? ==>
          t.usbLostSince == LostSince(s.usbLostSince, i.now, i.usb))
    && (!s.shutdown.Failed? ==>
          (t.shutdown.ConnectionLost?
           <==> s.shutdown.ConnectionLost? || Confirmed(LostSince(s.usbLostSince, i.now, i.usb), i.now)))
    && (!s.shutdown.Failed? ==>
          (Rung(t.shutdown) >= 1
           <==> Rung(s.shutdown) >= 1 || t.shutdown.ConnectionLost? || Overdue(s.lastUpdate, i.now)))
  }

  lemma SilentStep(s: State, i: Input)
    requires s.mode == ShuttingDown && i.inbox == []
    ensures SilentlyAfter(s, i, Turn(s, i).state)
  {
    var p := SilentTurn(s, i);
    TimersStep(p, i.now, i.usb);
    TimersTouchOnlyTheShutdownScreen(p, i.now, i.usb);
  }

  /** The states of a silent run, one turn after the other. */
  ghost predicate SilentRun(states: seq<State>, inputs: seq<Input>)
  {
    && |states| == |inputs| + 1
    && states[0].mode == ShuttingDown
    && forall k :: 0 <= k < |inputs| ==> SilentlyAfter(states[k], inputs[k], states[k + 1])
  }

  lemma {:induction false} TurnsAreSilentRuns(s: State, inputs: seq<Input>) returns (states: seq<State>)
    requires s.mode == ShuttingDown && Silent(inputs)
    ensures SilentRun(states, inputs) && states[0] == s && states[|inputs|] == Turns(s, inputs)
    decreases |inputs|
  {
    if inputs == [] {
      states := [s];
    } else {
      var n := |inputs| - 1;
      var before := TurnsAreSilentRuns(s, inputs[..n]);
      SilentStep(before[n], inputs[n]);
      states := before + [Turns(s, inputs)];
      forall k | 0 <= k < |inputs|
        ensures SilentlyAfter(states[k], inputs[k], states[k + 1])
      {
        assert k < n ==> SilentlyAfter(before[k], inputs[..n][k], before[k + 1]);
      }
    }
  }

  lemma {:induction false} SilentRunLadder(states: seq<State>, inputs: seq<Input>, n: nat)
    requires SilentRun(states, inputs) && n <= |inputs|
    ensures var s, end := states[0], states[n];
      && end.mode == ShuttingDown && end.session == s.session && end.lastUpdate == s.lastUpdate
      && Remaining(end.shutdown) == Remaining(s.shutdown)
      && Rung(s.shutdown) <= Rung(end.shutdown)
      && (s.shutdown.Failed? <==> end.shutdown.Failed?)
      && (s.shutdown.ConnectionLost? ==> end.shutdown == s.shutdown)
  {
    if n > 0 {
      SilentRunLadder(states, inputs, n - 1);
      assert SilentlyAfter(states[n - 1], inputs[n - 1], states[n]);
    }
  }

  /** While the host powers off in silence the screens only move down the ladder, a failure
      stays on screen, and the last reported guest count is never altered. */
  lemma SilentLadder(s: State, inputs: seq<Input>)
    requires s.mode == ShuttingDown && Silent(inputs)
    ensures var end := Turns(s, inputs);
      && end.mode == ShuttingDown && end.session == s.session && end.lastUpdate == s.lastUpdate
      && Remaining(end.shutdown) == Remaining(s.shutdown)
      && Rung(s.shutdown) <= Rung(end.shutdown)
      && (s.shutdown.Failed? <==> end.shutdown.Failed?)
      && (s.shutdown.ConnectionLost? ==> end.shutdown == s.shutdown)
  {
    var states := TurnsAreSilentRuns(s, inputs);
    SilentRunLadder(states, inputs, |inputs|);
  }

  /** Time does not run backwards, from the turn in which a loss was noted on. */
  ghost predicate Onward(since: Option<int>, inputs: seq<Input>)
  {
    && (forall j, k :: 0 <= j < k < |inputs| ==> inputs[j].now <= inputs[k].now)
    && (since.Some? && inputs != [] ==> since.value <= inputs[0].now)
  }

  /** No turn from `first` to `k` sees the connection. */
  ghost predicate LostFrom(inputs: seq<Input>, first: nat, k: nat) {
    first <= k < |inputs| && forall j :: first <= j <= k ==> !inputs[j].usb
  }

  /** When a loss that begins at this turn counts from: a loss noted before goes on. */
  function CountsFrom(since: Option<int>, inputs: seq<Input>, first: nat): int
    requires first < |inputs|
  {
    if first == 0 && since.Some? then since.value else inputs[first].now
  }

  /** At turn `k` the connection has been missing for two seconds, at every turn. */
  ghost predicate LostLongEnough(since: Option<int>, inputs: seq<Input>, k: nat)
  {
    exists first :: 0 <= first <= k && LostFrom(inputs, first, k)
                    && inputs[k].now - CountsFrom(since, inputs, first) >= SHUTDOWN_USB_LOST_CONFIRM
  }

  /** The mark behind the first `n` turns of a run, while the screen has not given up. */
  function Noted(since: Option<int>, inputs: seq<Input>, n: nat): Option<int>
    requires n <= |inputs|
  {
    if n == 0 then since else LostSince(Noted(since, inputs, n - 1), inputs[n - 1].now, inputs[n - 1].usb)
  }

  /** The mark is that of the first turn since which no turn saw the connection. */
  lemma {:induction false} NotedIsEarliest(since: Option<int>, inputs: seq<Input>, k: nat) returns (first: nat)
    requires Onward(since, inputs) && k < |inputs|
    ensures Noted(since, inputs, k + 1).Some? <==> !inputs[k].usb
    ensures !inputs[k].usb ==>
      LostFrom(inputs, first, k) && Noted(since, inputs, k + 1).value == CountsFrom(since, inputs, first)
    ensures forall f :: 0 <= f <= k && LostFrom(inputs, f, k) ==>
      Noted(since, inputs, k + 1).value <= CountsFrom(since, inputs, f)
  {
    first := k;
    if k > 0 {
      var before := NotedIsEarliest(since, inputs, k - 1);
      if !inputs[k].usb && !inputs[k - 1].usb {
        first := before;
        assert LostFrom(inputs, first, k);
        forall f | 0 <= f <= k && LostFrom(inputs, f, k)
          ensures Noted(since, inputs, k + 1).value <= CountsFrom(since, inputs, f)
        {
          assert f < k ==> LostFrom(inputs, f, k - 1);
          assert CountsFrom(since, inputs, first) <= inputs[k].now;
        }
      }
    }
  }

  lemma LossIsTimed(since: Option<int>, inputs: seq<Input>, k: nat)
    requires Onward(since, inputs) && k < |inputs|
    ensures Confirmed(Noted(since, inputs, k + 1), inputs[k].now) <==> LostLongEnough(since, inputs, k)
  {
    var first := NotedIsEarliest(since, inputs, k);
    if !inputs[k].usb {
      assert LostFrom(inputs, first, k);
    }
  }

  ghost predicate LostBefore(since: Option<int>, inputs: seq<Input>, n: nat) {
    exists k :: 0 <= k < n && LostLongEnough(since, inputs, k)
  }

  /** Over every silent run the device announces the loss of the host exactly if at some turn the
      connection had been missing for two seconds, at every turn of them. */
  lemma {:induction false} LinkLossIsConfirmed(states: seq<State>, inputs: seq<Input>, n: nat)
    requires SilentRun(states, inputs) && n <= |inputs| && Onward(states[0].usbLostSince, inputs)
    requires !states[0].shutdown.Failed? && !states[0].shutdown.ConnectionLost?
    ensures states[n].shutdown.ConnectionLost? <==> LostBefore(states[0].usbLostSince, inputs, n)
    ensures !states[n].shutdown.ConnectionLost? ==> states[n].usbLostSince == Noted(states[0].usbLostSince, inputs, n)
    ensures !states[n].shutdown.Failed?
  {
    if n > 0 {
      LinkLossIsConfirmed(states, inputs, n - 1);
      assert SilentlyAfter(states[n - 1], inputs[n - 1], states[n]);
      LossIsTimed(states[0].usbLostSince, inputs, n - 1);
    }
  }

  ghost predicate OverdueBefore(lastUpdate: Option<int>, inputs: seq<Input>, n: nat)
    requires n <= |inputs|
  {
    exists k :: 0 <= k < n && Overdue(lastUpdate, inputs[k].now)
  }

  /** Over every silent run the reports count as lost exactly if at some turn the last report was
      three seconds old; a lost connection counts as such too. */
  lemma {:induction false} ReportsAreMissedOnTime(states: seq<State>, inputs: seq<Input>, n: nat)
    requires SilentRun(states, inputs) && n <= |inputs|
    requires !states[0].shutdown.Failed? && Rung(states[0].shutdown) == 0
    ensures Rung(states[n].shutdown) >= 1
       <==> states[n].shutdown.ConnectionLost? || OverdueBefore(states[0].lastUpdate, inputs, n)
    ensures states[n].lastUpdate == states[0].lastUpdate && !states[n].shutdown.Failed?
  {
    if n > 0 {
      ReportsAreMissedOnTime(states, inputs, n - 1);
      assert SilentlyAfter(states[n - 1], inputs[n - 1], states[n]);
      assert OverdueBefore(states[0].lastUpdate, inputs, n)
        <==> OverdueBefore(states[0].lastUpdate, inputs, n - 1) || Overdue(states[0].lastUpdate, inputs[n - 1].now);
    }
  }

  /** The same of the loop itself: what it shows behind any number of silent turns. */
  lemma SilentScreens(s: State, inputs: seq<Input>)
    requires s.mode == ShuttingDown && Silent(inputs) && !s.shutdown.Failed? && Rung(s.shutdown) == 0
    requires Onward(s.usbLostSince, inputs)
    ensures var end := Turns(s, inputs);
      && (end.shutdown.ConnectionLost? <==> LostBefore(s.usbLostSince, inputs, |inputs|))
      && (end.shutdown.ReportingLost?
          <==> OverdueBefore(s.lastUpdate, inputs, |inputs|) && !LostBefore(s.usbLostSince, inputs, |inputs|))
  {
    var states := TurnsAreSilentRuns(s, inputs);
    LinkLossIsConfirmed(states, inputs, |inputs|);
    ReportsAreMissedOnTime(states, inputs, |inputs|);
  }
}
