/** The power-off screen between the host's reports: nothing but its spinner moves. */
module Spinner {
  import opened Common
  import opened Protocol
  import opened Stick
  import Reception

  /** When the spinner last moved, told from the times of the turns. */
  function LastSpun(since: int, inputs: seq<Input>): int
  {
    if inputs == [] then since
    else
      var before, now := LastSpun(since, inputs[..|inputs| - 1]), inputs[|inputs| - 1].now;
      if now - before >= 250 then now else before
  }

  /** How often it moved: at the first turn a quarter of a second behind the last time. */
  function Spins(since: int, inputs: seq<Input>): nat
  {
    if inputs == [] then 0
    else
      var init, now := inputs[..|inputs| - 1], inputs[|inputs| - 1].now;
      Spins(since, init) + if now - LastSpun(since, init) >= 250 then 1 else 0
  }

  /** The screen, its spinner so many frames on; there are four of them. */
  function FramesOn(d: ShutdownDisplay, n: nat): ShutdownDisplay {
    match d
    case HostPoweroff(spinner, remaining) => HostPoweroff((spinner + n) % 4, remaining)
    case _ => d
  }

  lemma OneFrameOn(d: ShutdownDisplay, n: nat)
    ensures FramesOn(FramesOn(d, n), 1) == FramesOn(d, n + 1)
  {
  }

  /** The spinner has moved so many frames, last at this time; nothing else of the screen has. */
  ghost predicate HasMoved(s: State, n: nat, at: int, t: State) {
    if s.shutdown.HostPoweroff? then t.shutdown == FramesOn(s.shutdown, n) && t.lastSpinner == at
    else t.shutdown == s.shutdown && t.lastSpinner == s.lastSpinner
  }

  /** The same of one turn, unless the host is given up in it. */
  ghost predicate MovesOnce(s: State, now: int, t: State) {
    Rung(t.shutdown) == 0 ==>
      var due := s.shutdown.HostPoweroff? && now - s.lastSpinner >= 250;
      && t.shutdown == (if due then FramesOn(s.shutdown, 1) else s.shutdown)
      && t.lastSpinner == if due then now else s.lastSpinner
  }

  lemma SpinStep(p: State, now: int, usb: bool)
    requires p.mode == ShuttingDown
    ensures MovesOnce(p, now, ShutdownTimers(p, now, usb))
  {
    var u := WatchUsb(p, now, usb);
    var r := WatchReports(u, now);
    assert u.shutdown == p.shutdown || u.shutdown.ConnectionLost?;
    assert r.shutdown == u.shutdown || r.shutdown.ReportingLost?;
  }

  /** The states of a silent run, one turn after the other. */
  ghost predicate Spinning(states: seq<State>, inputs: seq<Input>)
  {
    && SilentRun(states, inputs)
    && forall k :: 0 <= k < |inputs| ==> MovesOnce(states[k], inputs[k].now, states[k + 1])
  }

  lemma {:induction false} TurnsAreSpinning(s: State, inputs: seq<Input>) returns (states: seq<State>)
    requires s.mode == ShuttingDown && Silent(inputs)
    ensures Spinning(states, inputs) && states[0] == s && states[|inputs|] == Turns(s, inputs)
    decreases |inputs|
  {
    if inputs == [] {
      states := [s];
    } else {
      var init, i := inputs[..|inputs| - 1], inputs[|inputs| - 1];
      assert init + [i] == inputs;
      var before := TurnsAreSpinning(s, init);
      states := OneTurnSpins(before, init, i);
    }
  }

  lemma OneTurnSpins(states: seq<State>, inputs: seq<Input>, i: Input) returns (more: seq<State>)
    requires Spinning(states, inputs) && i.inbox == []
    ensures Spinning(more, inputs + [i])
    ensures more[0] == states[0] && more[|inputs| + 1] == Turn(states[|inputs|], i).state
  {
    var last := states[|inputs|];
    StillShuttingDown(states, inputs);
    SilentStep(last, i);
    SpinTurn(last, i);
    more := states + [Turn(last, i).state];
    SpinningOneMore(states, inputs, i, more[|inputs| + 1]);
  }

  lemma StillShuttingDown(states: seq<State>, inputs: seq<Input>)
    requires Spinning(states, inputs)
    ensures states[|inputs|].mode == ShuttingDown
  {
    if inputs != [] {
      assert SilentlyAfter(states[|inputs| - 1], inputs[|inputs| - 1], states[|inputs|]);
    }
  }

  lemma SpinningOneMore(states: seq<State>, inputs: seq<Input>, i: Input, t: State)
    requires Spinning(states, inputs)
    requires SilentlyAfter(states[|inputs|], i, t) && MovesOnce(states[|inputs|], i.now, t)
    ensures Spinning(states + [t], inputs + [i])
  {
    var more, all := states + [t], inputs + [i];
    forall k | 0 <= k < |all|
      ensures SilentlyAfter(more[k], all[k], more[k + 1]) && MovesOnce(more[k], all[k].now, more[k + 1])
    {
      assert k < |inputs| ==> SilentlyAfter(states[k], inputs[k], states[k + 1]);
      assert k < |inputs| ==> MovesOnce(states[k], inputs[k].now, states[k + 1]);
    }
  }

  lemma {:induction false} SpinnerMovesOn(states: seq<State>, inputs: seq<Input>)
    requires Spinning(states, inputs) && InItsFrames(states[0]) && Rung(states[|inputs|].shutdown) == 0
    ensures var s := states[0];
      HasMoved(s, Spins(s.lastSpinner, inputs), LastSpun(s.lastSpinner, inputs), states[|inputs|])
    decreases |inputs|
  {
    var s := states[0];
    if inputs == [] {
      NothingHasMoved(s);
    } else {
      var n := |inputs| - 1;
      assert SilentlyAfter(states[n], inputs[n], states[n + 1]);
      SpinnerMovesOn(states[..|inputs|], inputs[..n]);
      assert MovesOnce(states[n], inputs[n].now, states[n + 1]);
      HasMovedOn(s, Spins(s.lastSpinner, inputs[..n]), LastSpun(s.lastSpinner, inputs[..n]),
                 states[n], inputs[n], states[n + 1]);
    }
  }

  lemma HasMovedOn(s: State, n: nat, at: int, before: State, i: Input, t: State)
    requires HasMoved(s, n, at, before) && MovesOnce(before, i.now, t) && Rung(t.shutdown) == 0
    ensures var due := i.now - at >= 250;
      HasMoved(s, n + (if due then 1 else 0), if due then i.now else at, t)
  {
    OneFrameOn(s.shutdown, n);
  }

  /** Over every silent run at whose end the host is not given up, the screen is the one at its start,
      except that on the power-off screen the spinner has gone round, a frame for every quarter of a
      second that a turn found past. */
  lemma OnlyTheSpinnerMoves(s: State, inputs: seq<Input>)
    requires s.mode == ShuttingDown && Silent(inputs) && Rung(Turns(s, inputs).shutdown) == 0
    requires InItsFrames(s)
    ensures HasMoved(s, Spins(s.lastSpinner, inputs), LastSpun(s.lastSpinner, inputs), Turns(s, inputs))
  {
    var states := TurnsAreSpinning(s, inputs);
    SpinnerMovesOn(states, inputs);
  }

  lemma NothingHasMoved(s: State)
    requires InItsFrames(s)
    ensures HasMoved(s, 0, s.lastSpinner, s)
  {
  }

  lemma SpinTurn(s: State, i: Input)
    requires s.mode == ShuttingDown && i.inbox == []
    ensures MovesOnce(s, i.now, Turn(s, i).state)
  {
    var p := SilentTurn(s, i);
    SpinStep(p, i.now, i.usb);
  }

  ghost predicate InItsFrames(s: State) {
    s.shutdown.HostPoweroff? ==> s.shutdown.spinner < 4
  }

  lemma TimersKeepFrames(p: State, now: int, usb: bool)
    requires InItsFrames(p)
    ensures InItsFrames(ShutdownTimers(p, now, usb))
  {
    var u := WatchUsb(p, now, usb);
    assert InItsFrames(u);
    assert InItsFrames(WatchReports(u, now));
  }

  lemma TurnKeepsFrames(s: State, i: Input)
    requires InItsFrames(s)
    ensures InItsFrames(Turn(s, i).state)
  {
    var greeted := HelloTick(s, i.now).state;
    Reception.InboxShows(greeted, i.now, i.inbox);
    var received := ReceiveAll(greeted, i.now, i.inbox).state;
    assert InItsFrames(received);
    RestKeepsFrames(received, i);
  }

  lemma RestKeepsFrames(r: State, i: Input)
    requires InItsFrames(r)
    ensures InItsFrames(ShutdownTimers(Press(Age(r, i.now), i.now, i.action, i.held).state, i.now, i.usb))
  {
    var p := Press(Age(r, i.now), i.now, i.action, i.held).state;
    assert p.shutdown == r.shutdown;
    TimersKeepFrames(p, i.now, i.usb);
  }

  /** The spinner is in one of its four frames, over every run from power-up. */
  lemma {:induction false} SpinnerIsInItsFrames(start: int, inputs: seq<Input>)
    ensures InItsFrames(Turns(Booted(start), inputs))
    decreases |inputs|
  {
    if inputs != [] {
      SpinnerIsInItsFrames(start, inputs[..|inputs| - 1]);
      TurnKeepsFrames(Turns(Booted(start), inputs[..|inputs| - 1]), inputs[|inputs| - 1]);
    }
  }
}
