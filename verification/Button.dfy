/** The device's one button: debouncing, and telling a short press from a long one. */
module Button {
  import opened Common
  import opened Stick

  const DEBOUNCE := 30

  /** One look at the pin; times and the hold time are milliseconds. */
  datatype Sample = Sample(pressed: bool, now: int, longPress: int)

  datatype Debouncer = Debouncer(raw: bool, changedAt: int, stable: bool, pressedAt: Option<int>, sent: bool)

  function Released(now: int): Debouncer {
    Debouncer(false, now, false, None, false)
  }

  /** The level is settled: it held for the debounce time. */
  function Settled(b: Debouncer, now: int): (Debouncer, bool)
  {
    if b.stable == b.raw || now - b.changedAt < DEBOUNCE then (b, false)
    else if b.raw then (b.(stable := true, pressedAt := Some(now), sent := false), false)
    else (b.(stable := false, pressedAt := None), !b.sent)
  }

  function Update(b: Debouncer, s: Sample): (Debouncer, Option<ButtonAction>)
  {
    if s.pressed != b.raw then (b.(raw := s.pressed, changedAt := s.now), None)
    else
      var (c, clicked) := Settled(b, s.now);
      if clicked then (c, Some(NextScreen))
      else if c.stable && !c.sent && c.pressedAt.Some? && s.now - c.pressedAt.value >= s.longPress then
        (c.(sent := true), Some(LongPress))
      else (c, None)
  }

  /** How long an unfinished press lasts so far. */
  function HeldFor(b: Debouncer, now: int): Option<int> {
    if b.stable && !b.sent && b.pressedAt.Some? then Some(now - b.pressedAt.value) else None
  }

  class PushButton {
    var rawPressed: bool
    var rawChangedAt: int
    var stablePressed: bool
    var pressedAt: Option<int>
    var longPressSent: bool

    ghost function Abs(): Debouncer
      reads this
    {
      Debouncer(rawPressed, rawChangedAt, stablePressed, pressedAt, longPressSent)
    }

    constructor (now: int)
      ensures Abs() == Released(now)
    {
      rawPressed, rawChangedAt, stablePressed, pressedAt, longPressSent := false, now, false, None, false;
    }

    method Observe(pressed: bool, now: int, longPress: int) returns (action: Option<ButtonAction>)
      modifies this
      ensures (Abs(), action) == Update(old(Abs()), Sample(pressed, now, longPress))
    {
      if pressed != rawPressed {
        rawPressed, rawChangedAt := pressed, now;
        return None;
      }
      if stablePressed != rawPressed && now - rawChangedAt >= DEBOUNCE {
        stablePressed := rawPressed;
        if stablePressed {
          pressedAt, longPressSent := Some(now), false;
        } else {
          pressedAt := None;
          if !longPressSent {
            return Some(NextScreen);
          }
        }
      }
      if stablePressed && !longPressSent && pressedAt.Some? && now - pressedAt.value >= longPress {
        longPressSent := true;
        return Some(LongPress);
      }
      return None;
    }
  }

  function After(start: int, samples: seq<Sample>): Debouncer
  {
    if samples == [] then Released(start)
    else Update(After(start, samples[..|samples| - 1]), samples[|samples| - 1]).0
  }

  // ---------------------------------------------------------------- debouncing

  function Raw(samples: seq<Sample>): bool {
    samples != [] && samples[|samples| - 1].pressed
  }

  /** When the current run of equal samples began. */
  function RunStart(start: int, samples: seq<Sample>): int
  {
    if samples == [] then start
    else
      var init, last := samples[..|samples| - 1], samples[|samples| - 1];
      if last.pressed == Raw(init) then RunStart(start, init) else last.now
  }

  ghost predicate Onward(start: int, samples: seq<Sample>)
  {
    && (forall k :: 0 <= k < |samples| ==> start <= samples[k].now)
    && (forall j, k :: 0 <= j < k < |samples| ==> samples[j].now <= samples[k].now)
  }

  lemma {:induction false} RawIsTracked(start: int, samples: seq<Sample>)
    ensures After(start, samples).raw == Raw(samples)
    ensures After(start, samples).changedAt == RunStart(start, samples)
    ensures var b := After(start, samples); (b.stable <==> b.pressedAt.Some?)
    decreases |samples|
  {
    if samples != [] {
      RawIsTracked(start, samples[..|samples| - 1]);
    }
  }

  /** All samples from `j` on, and there are at least two of them, show this level. */
  ghost predicate Steady(samples: seq<Sample>, j: nat, level: bool) {
    j + 1 < |samples| && forall k :: j <= k < |samples| ==> samples[k].pressed == level
  }

  lemma {:induction false} SteadyRun(start: int, samples: seq<Sample>, j: nat, level: bool)
    requires Onward(start, samples) && j < |samples|
    requires forall k :: j <= k < |samples| ==> samples[k].pressed == level
    ensures RunStart(start, samples) <= samples[j].now
    decreases |samples|
  {
    var init, last := samples[..|samples| - 1], samples[|samples| - 1];
    if j < |init| {
      SteadyRun(start, init, j, level);
    } else {
      RunStartsBefore(start, init);
      assert forall k :: 0 <= k < |init| ==> init[k].now <= last.now;
    }
  }

  lemma {:induction false} RunStartsBefore(start: int, samples: seq<Sample>)
    requires Onward(start, samples)
    ensures RunStart(start, samples) <= if samples == [] then start else samples[|samples| - 1].now
    decreases |samples|
  {
    if samples != [] {
      RunStartsBefore(start, samples[..|samples| - 1]);
    }
  }

  /** A level that is seen without interruption for the debounce time is taken over. */
  lemma SteadyLevelIsTaken(start: int, samples: seq<Sample>, j: nat, level: bool)
    requires Onward(start, samples) && Steady(samples, j, level)
    requires samples[|samples| - 1].now - samples[j].now >= DEBOUNCE
    ensures After(start, samples).stable == level
  {
    var init := samples[..|samples| - 1];
    RawIsTracked(start, init);
    SteadyRun(start, init, j, level);
  }

  /** The run of equal samples at the end goes back to a sample, or to the start of the device. */
  lemma {:induction false} RunIsSteady(start: int, samples: seq<Sample>) returns (j: nat)
    requires samples != []
    ensures j < |samples| && forall k :: j <= k < |samples| ==> samples[k].pressed == Raw(samples)
    ensures RunStart(start, samples) == samples[j].now || (j == 0 && RunStart(start, samples) == start && !Raw(samples))
    decreases |samples|
  {
    var init, last := samples[..|samples| - 1], samples[|samples| - 1];
    if last.pressed != Raw(init) {
      j := |init|;
    } else if init == [] {
      j := 0;
    } else {
      j := RunIsSteady(start, init);
    }
  }

  /** Only such a level is taken over: when the settled level changes, at least two samples show
      the new one, without interruption and over at least the debounce time. */
  lemma ChangesAreSteady(start: int, samples: seq<Sample>) returns (j: nat)
    requires samples != [] && After(start, samples).stable != After(start, samples[..|samples| - 1]).stable
    ensures j + 1 < |samples| && Steady(samples, j, After(start, samples).stable)
    ensures samples[|samples| - 1].now - samples[j].now >= DEBOUNCE
  {
    var init := samples[..|samples| - 1];
    RawIsTracked(start, init);
    RawIsTracked(start, samples);
    if init == [] || !Raw(samples) {
      HighRunBefore(start, init);
    }
    j := RunIsSteady(start, samples);
  }

  lemma {:induction false} HighRunBefore(start: int, samples: seq<Sample>)
    ensures After(start, samples).stable ==> exists k :: 0 <= k < |samples| && samples[k].pressed
    decreases |samples|
  {
    if samples != [] {
      HighRunBefore(start, samples[..|samples| - 1]);
      RawIsTracked(start, samples);
      RawIsTracked(start, samples[..|samples| - 1]);
    }
  }

  // ---------------------------------------------------------------- one action for each press

  /** An action with its time, the settled press it was taken in, and whether that press is over
      now or still held. */
  datatype Taken = Taken(action: ButtonAction, at: int, press: nat, since: int, longPress: int, released: bool,
                         held: bool)

  /** How often the settled level has gone down so far. */
  function Presses(start: int, samples: seq<Sample>): nat
  {
    if samples == [] then 0
    else
      var init := samples[..|samples| - 1];
      Presses(start, init) + if After(start, samples).stable && !After(start, init).stable then 1 else 0
  }

  /** The actions of a run; a press is known by its number and the time it settled. */
  function Actions(start: int, samples: seq<Sample>): seq<Taken>
  {
    if samples == [] then []
    else
      var init, last := samples[..|samples| - 1], samples[|samples| - 1];
      var before := After(start, init);
      var (after, action) := Update(before, last);
      var since := if after.pressedAt.Some? then after.pressedAt.value
                   else if before.pressedAt.Some? then before.pressedAt.value
                   else start;
      Actions(start, init)
      + if action.Some? then
          [Taken(action.value, last.now, Presses(start, samples), since, last.longPress,
                 before.stable && !after.stable, after.stable)]
        else []
  }

  /** When the press under way settled: at the first sample at which the level is settled. */
  function SettledAt(start: int, samples: seq<Sample>): Option<int>
  {
    if samples == [] || !After(start, samples).stable then None
    else if After(start, samples[..|samples| - 1]).stable then SettledAt(start, samples[..|samples| - 1])
    else Some(samples[|samples| - 1].now)
  }

  function HeldSince(start: int, samples: seq<Sample>, now: int): Option<int> {
    var settled := SettledAt(start, samples);
    if settled.Some? && !After(start, samples).sent then Some(now - settled.value) else None
  }

  /** A press counts from when it settled, not from its first contact; and it is shown as held from
      then on, as long as it has made no request. */
  lemma {:induction false} PressCountsFromSettling(start: int, samples: seq<Sample>)
    ensures After(start, samples).pressedAt == SettledAt(start, samples)
    ensures forall now :: HeldFor(After(start, samples), now) == HeldSince(start, samples, now)
    decreases |samples|
  {
    RawIsTracked(start, samples);
    if samples != [] {
      PressCountsFromSettling(start, samples[..|samples| - 1]);
      RawIsTracked(start, samples[..|samples| - 1]);
    }
  }

  /** The press under way has not had its action yet. */
  predicate Open(b: Debouncer) {
    b.stable && !b.sent
  }

  /** In every run the k-th action belongs to the k-th settled press, and every press that is
      over has had one: a press gives exactly one action, and there is none outside a press. */
  lemma {:induction false} OneActionPerPress(start: int, samples: seq<Sample>)
    ensures var actions := Actions(start, samples);
      && |actions| == Presses(start, samples) - (if Open(After(start, samples)) then 1 else 0)
      && (forall k :: 0 <= k < |actions| ==> actions[k].press == k + 1)
    decreases |samples|
  {
    if samples != [] {
      var init := samples[..|samples| - 1];
      OneActionPerPress(start, init);
      RawIsTracked(start, init);
    }
  }

  /** A shutdown request is made while the press is held, the hold time or more after it settled;
      the short action is taken at the settled release of a press that had no request. */
  lemma {:induction false} ActionsAreEarned(start: int, samples: seq<Sample>, k: nat)
    requires k < |Actions(start, samples)|
    ensures var a := Actions(start, samples)[k];
      && (a.action == NextScreen <==> a.released)
      && (a.action == LongPress <==> a.held)
      && (a.action == LongPress ==> a.at - a.since >= a.longPress)
    decreases |samples|
  {
    var init := samples[..|samples| - 1];
    RawIsTracked(start, init);
    if k < |Actions(start, init)| {
      ActionsAreEarned(start, init, k);
    }
  }

  /** A request is only made while the press is held, and has been for the hold time. */
  lemma RequestIsHeld(b: Debouncer, s: Sample)
    requires Update(b, s).1 == Some(LongPress)
    ensures var c := Update(b, s).0; c.stable && c.pressedAt.Some? && s.now - c.pressedAt.value >= s.longPress
  {
  }

  /** A press that is held for the hold time has made its request by the next undisturbed sample. */
  lemma HeldPressIsRequested(start: int, samples: seq<Sample>)
    requires samples != []
    requires samples[|samples| - 1].pressed && Raw(samples[..|samples| - 1])
    requires var last, b := samples[|samples| - 1], After(start, samples);
      b.stable && b.pressedAt.Some? && last.now - b.pressedAt.value >= last.longPress
    ensures After(start, samples).sent
  {
    RawIsTracked(start, samples[..|samples| - 1]);
  }
}
