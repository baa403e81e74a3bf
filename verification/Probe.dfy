/** The connectivity probe: one thread asks for snapshots and starts probes, the probes finish
    in threads of their own, and the network link comes and goes in between. */
module ConnectivityProbe {
  import opened Common

  const GENERATIONS: nat := 0x1_0000_0000
  const MAX_COUNTER: nat := 255

  datatype Status = Checking | Reachable | Missed | Failed

  /** The configured timing, in milliseconds, and the failures that make a failure. */
  datatype Settings = Settings(interval: nat, settle: nat, retry: nat, failures: nat)

  datatype Probe = Probe(
    status: Status, counter: nat, lastSuccess: Option<int>, nextProbe: int, inFlight: bool,
    lastLinkUp: Option<bool>, generation: nat, grace: bool)

  function Fresh(now: int): Probe {
    Probe(Checking, 0, None, now, false, None, 0, false)
  }

  /** The link changed. */
  function Relinked(c: Settings, p: Probe, now: int, linkUp: bool): Probe
  {
    p.(lastLinkUp := Some(linkUp), nextProbe := if linkUp then now + c.settle else now, status := Checking,
       counter := 0, generation := (p.generation + 1) % GENERATIONS, grace := linkUp)
  }

  /** A snapshot; the probe it starts is told apart by its generation. */
  function Prepared(c: Settings, p: Probe, now: int, linkUp: bool): (r: (Probe, Option<nat>))
  {
    var q := if p.lastLinkUp == Some(linkUp) then p else Relinked(c, p, now, linkUp);
    if q.inFlight || now < q.nextProbe then (q, None)
    else (q.(inFlight := true, nextProbe := now + c.interval), Some(q.generation))
  }

  function Recorded(c: Settings, p: Probe, generation: nat, reachable: bool, now: int): Probe
  {
    var q := p.(inFlight := false);
    if p.generation != generation then q
    else if reachable then q.(status := Reachable, counter := 0, lastSuccess := Some(now), grace := false)
    else if p.grace then q.(status := Checking, grace := false, nextProbe := now + c.retry)
    else
      var counter := Min(p.counter + 1, MAX_COUNTER);
      q.(counter := counter, status := if counter < c.failures then Missed else Failed)
  }

  class ProbeState {
    const settings: Settings
    var status: Status
    var consecutiveFailures: nat
    var lastSuccess: Option<int>
    var nextProbe: int
    var inFlight: bool
    var lastLinkUp: Option<bool>
    var generation: nat
    var linkUpGraceRetry: bool

    ghost function Abs(): Probe
      reads this
    {
      Probe(status, consecutiveFailures, lastSuccess, nextProbe, inFlight, lastLinkUp, generation, linkUpGraceRetry)
    }

    constructor (settings: Settings, now: int)
      ensures this.settings == settings && Abs() == Fresh(now)
    {
      this.settings := settings;
      status, consecutiveFailures, lastSuccess, nextProbe := Checking, 0, None, now;
      inFlight, lastLinkUp, generation, linkUpGraceRetry := false, None, 0, false;
    }

    method PrepareProbe(now: int, linkUp: bool) returns (started: Option<nat>)
      modifies this
      ensures (Abs(), started) == Prepared(settings, old(Abs()), now, linkUp)
    {
      if lastLinkUp != Some(linkUp) {
        lastLinkUp := Some(linkUp);
        nextProbe := if linkUp then now + settings.settle else now;
        status := Checking;
        consecutiveFailures := 0;
        generation := (generation + 1) % GENERATIONS;
        linkUpGraceRetry := linkUp;
      }
      if inFlight || now < nextProbe {
        return None;
      }
      inFlight := true;
      nextProbe := now + settings.interval;
      return Some(generation);
    }

    method RecordResult(probe: nat, reachable: bool, now: int)
      modifies this
      ensures Abs() == Recorded(settings, old(Abs()), probe, reachable, now)
    {
      inFlight := false;
      if generation != probe {
        return;
      }
      if reachable {
        status := Reachable;
        consecutiveFailures := 0;
        lastSuccess := Some(now);
        linkUpGraceRetry := false;
      } else if linkUpGraceRetry {
        status := Checking;
        linkUpGraceRetry := false;
        nextProbe := now + settings.retry;
      } else {
        consecutiveFailures := Min(consecutiveFailures + 1, MAX_COUNTER);
        status := if consecutiveFailures < settings.failures then Missed else Failed;
      }
    }
  }

  // ---------------------------------------------------------------- the threads together

  /** A probe under way; `epoch` and `at` are history. */
  datatype Launch = Launch(generation: nat, epoch: nat, at: int)

  /** The shared state and the probes under way. The rest is history, which no step of the
      code looks at: the link changes so far and the time of the last one, the results of the
      probes started and finished since then, and the last success among all such results. */
  datatype World = World(
    probe: Probe, underWay: seq<Launch>, clock: int,
    changes: nat, changedAt: int, results: seq<bool>, successAt: Option<int>, gracedAt: Option<int>)

  /** A thread that cannot be started is a probe that finishes unreachable. */
  datatype Event =
    | TakeSnapshot(now: int, linkUp: bool)
    | Finish(i: nat, reachable: bool, now: int)

  function Start(now: int): World {
    World(Fresh(now), [], now, 0, now, [], None, None)
  }

  function Snapshotted(c: Settings, w: World, now: int, linkUp: bool): World
  {
    var (p, started) := Prepared(c, w.probe, now, linkUp);
    var v := if w.probe.lastLinkUp == Some(linkUp) then w
             else w.(changes := w.changes + 1, changedAt := now, results := [], gracedAt := None);
    var launches := if started.Some? then [Launch(started.value, v.changes, now)] else [];
    v.(probe := p, underWay := v.underWay + launches, clock := now)
  }

  function Finished(c: Settings, w: World, i: nat, reachable: bool, now: int): World
    requires i < |w.underWay|
  {
    var launch := w.underWay[i];
    var timely := launch.epoch == w.changes;
    World(Recorded(c, w.probe, launch.generation, reachable, now), w.underWay[..i] + w.underWay[i + 1..], now,
          w.changes, w.changedAt, if timely then w.results + [reachable] else w.results,
          if timely && reachable then Some(now) else w.successAt,
          if timely && !reachable && w.results == [] && w.probe.lastLinkUp == Some(true) then Some(now) else w.gracedAt)
  }

  function Happen(c: Settings, w: World, e: Event): World
  {
    match e
    case TakeSnapshot(now, linkUp) => Snapshotted(c, w, now, linkUp)
    case Finish(i, reachable, now) => if i < |w.underWay| then Finished(c, w, i, reachable, now) else w
  }

  function Run(c: Settings, w: World, events: seq<Event>): World
    decreases |events|
  {
    if events == [] then w else Happen(c, Run(c, w, events[..|events| - 1]), events[|events| - 1])
  }

  // ---------------------------------------------------------------- what the state should be

  /** The failures in a row at the end. */
  function Trailing(results: seq<bool>): (n: nat)
    ensures n <= |results|
  {
    if results == [] || results[|results| - 1] then 0 else 1 + Trailing(results[..|results| - 1])
  }

  /** The failures that count: a failure that is the first result behind a link-up does not. */
  function Counted(linkUp: bool, results: seq<bool>): nat {
    var n := Trailing(results);
    if linkUp && n == |results| && n > 0 then n - 1 else n
  }

  function StatusOf(failures: nat, linkUp: bool, results: seq<bool>): Status
  {
    if results == [] then Checking
    else if results[|results| - 1] then Reachable
    else if Counted(linkUp, results) == 0 then Checking
    else if Counted(linkUp, results) < failures then Missed
    else Failed
  }

  predicate LinkUp(w: World) {
    w.probe.lastLinkUp == Some(true)
  }

  /** The shared state says what the results since the last link change amount to. */
  ghost predicate Truthful(c: Settings, w: World)
  {
    && w.probe.counter == Min(Counted(LinkUp(w), w.results), MAX_COUNTER)
    && w.probe.status == StatusOf(c.failures, LinkUp(w), w.results)
    && w.probe.grace == (LinkUp(w) && w.results == [])
    && w.probe.lastSuccess == w.successAt
  }

  /** At most one probe is under way, and the flag says whether one is. */
  ghost predicate Exclusive(w: World)
  {
    && |w.underWay| == (if w.probe.inFlight then 1 else 0)
    && w.probe.generation == w.changes % GENERATIONS
    && (forall k :: 0 <= k < |w.underWay| ==>
          w.underWay[k].epoch <= w.changes && w.underWay[k].generation == w.underWay[k].epoch % GENERATIONS)
  }

  lemma HappenKeepsExclusive(c: Settings, w: World, e: Event)
    requires Exclusive(w)
    ensures Exclusive(Happen(c, w, e))
  {
    Wraps(w.changes);
  }

  lemma Wraps(n: nat)
    ensures (n + 1) % GENERATIONS == (n % GENERATIONS + 1) % GENERATIONS
  {
  }

  /** In every interleaving at most one probe is under way, and `inFlight` says whether one is. */
  lemma {:induction false} AtMostOneProbe(c: Settings, now: int, events: seq<Event>)
    ensures Exclusive(Run(c, Start(now), events))
    decreases |events|
  {
    if events != [] {
      AtMostOneProbe(c, now, events[..|events| - 1]);
      HappenKeepsExclusive(c, Run(c, Start(now), events[..|events| - 1]), events[|events| - 1]);
    }
  }

  /** A result of before a link change is taken for a current one exactly when the changes since
      then are a multiple of 2^32; otherwise it does nothing but clear the flag. */
  lemma StaleResults(c: Settings, w: World, reachable: bool, now: int)
    requires Exclusive(w) && w.underWay != []
    ensures var launch := w.underWay[0];
      && (launch.generation == w.probe.generation <==> (w.changes - launch.epoch) % GENERATIONS == 0)
      && ((w.changes - launch.epoch) % GENERATIONS != 0 ==>
            Finished(c, w, 0, reachable, now).probe == w.probe.(inFlight := false))
  {
    SameRemainder(w.underWay[0].epoch, w.changes);
  }

  lemma SameRemainder(a: nat, b: nat)
    requires a <= b
    ensures a % GENERATIONS == b % GENERATIONS <==> (b - a) % GENERATIONS == 0
  {
  }

  /** The probe finishing at this event, if one does, saw fewer than 2^32 link changes. */
  ghost predicate Recent(w: World, e: Event) {
    e.Finish? && e.i < |w.underWay| ==> w.changes - w.underWay[e.i].epoch < GENERATIONS
  }

  lemma OneMoreResult(failures: nat, linkUp: bool, results: seq<bool>, reachable: bool)
    ensures var more := results + [reachable];
      && Counted(linkUp, more) == (if reachable || (linkUp && results == []) then 0 else Counted(linkUp, results) + 1)
      && StatusOf(failures, linkUp, more) ==
           (if reachable then Reachable else if linkUp && results == [] then Checking
            else if Counted(linkUp, results) + 1 < failures then Missed else Failed)
  {
    assert (results + [reachable])[..|results|] == results;
  }

  lemma FinishKeepsTruthful(c: Settings, w: World, reachable: bool, now: int)
    requires c.failures <= MAX_COUNTER && w.underWay != []
    requires Exclusive(w) && Truthful(c, w) && w.changes - w.underWay[0].epoch < GENERATIONS
    ensures Truthful(c, Finished(c, w, 0, reachable, now))
  {
    StaleResults(c, w, reachable, now);
    var v := Finished(c, w, 0, reachable, now);
    if w.underWay[0].epoch == w.changes {
      OneMoreResult(c.failures, LinkUp(w), w.results, reachable);
      assert v.results == w.results + [reachable];
    } else {
      assert v.probe == w.probe.(inFlight := false) && v.results == w.results;
    }
  }

  lemma HappenKeepsTruthful(c: Settings, w: World, e: Event)
    requires c.failures <= MAX_COUNTER
    requires Exclusive(w) && Truthful(c, w) && Recent(w, e)
    ensures Truthful(c, Happen(c, w, e))
  {
    match e
    case TakeSnapshot(now, linkUp) =>
    case Finish(i, reachable, now) =>
      if i < |w.underWay| {
        FinishKeepsTruthful(c, w, reachable, now);
      }
  }

  /** Every probe of the run saw fewer than 2^32 link changes. */
  ghost predicate AllRecent(c: Settings, w: World, events: seq<Event>) {
    forall k :: 0 <= k < |events| ==> Recent(Run(c, w, events[..k]), events[k])
  }

  /** In every interleaving, status, failure counter and last success are those of the results
      of probes started since the last link change, whatever older probes report. */
  lemma {:induction false} StateIsTruthful(c: Settings, now: int, events: seq<Event>)
    requires c.failures <= MAX_COUNTER && AllRecent(c, Start(now), events)
    ensures Truthful(c, Run(c, Start(now), events))
    decreases |events|
  {
    if events != [] {
      var init := events[..|events| - 1];
      assert forall k :: 0 <= k < |init| ==> init[..k] == events[..k];
      StateIsTruthful(c, now, init);
      AtMostOneProbe(c, now, init);
      HappenKeepsTruthful(c, Run(c, Start(now), init), events[|events| - 1]);
    }
  }

  /** The thresholds hold of the real number of failures, beyond what the counter can hold. */
  lemma StatusMeansThreshold(c: Settings, now: int, events: seq<Event>)
    requires 1 <= c.failures <= MAX_COUNTER && AllRecent(c, Start(now), events)
    ensures var w := Run(c, Start(now), events); var n := Counted(LinkUp(w), w.results);
      && (w.probe.status == Failed <==> n >= c.failures)
      && (w.probe.status == Missed <==> 0 < n < c.failures)
      && (w.probe.status == Failed <==> w.probe.counter >= c.failures)
      && (w.probe.status == Missed <==> 0 < w.probe.counter < c.failures)
      && (w.probe.status == Reachable <==> w.results != [] && w.results[|w.results| - 1])
  {
    StateIsTruthful(c, now, events);
  }

  // ---------------------------------------------------------------- a wrapped generation

  /** The link changes n times, to and fro, while the probe is under way. */
  function Flapping(now: int, linkUp: bool, n: nat): seq<Event>
  {
    if n == 0 then [] else Flapping(now, linkUp, n - 1) + [TakeSnapshot(now, if Odd(n) then linkUp else !linkUp)]
  }

  lemma OneFlap(c: Settings, u: World, now: int, linkUp: bool)
    requires Exclusive(u) && u.probe.inFlight && u.probe.lastLinkUp == Some(!linkUp)
    ensures var v := Snapshotted(c, u, now, linkUp);
      && Exclusive(v) && v.probe.inFlight && v.underWay == u.underWay && v.changes == u.changes + 1
      && v.probe.lastLinkUp == Some(linkUp) && v.probe.grace == linkUp && v.probe.counter == 0 && v.results == []
  {
    HappenKeepsExclusive(c, u, TakeSnapshot(now, linkUp));
    assert u.underWay + [] == u.underWay;
  }

  lemma FlappingLast(c: Settings, w: World, now: int, linkUp: bool, n: nat)
    requires n > 0
    ensures Run(c, w, Flapping(now, linkUp, n))
         == Snapshotted(c, Run(c, w, Flapping(now, linkUp, n - 1)), now, if Odd(n) then linkUp else !linkUp)
  {
    var events := Flapping(now, linkUp, n);
    assert events[..|events| - 1] == Flapping(now, linkUp, n - 1);
  }

  predicate Odd(n: nat) {
    n % 2 == 1
  }

  /** `v` is `w` behind `n` changes of the link, the first of them to `linkUp`. */
  ghost predicate Flapped(w: World, v: World, linkUp: bool, n: nat)
  {
    && Exclusive(v) && v.probe.inFlight && v.underWay == w.underWay && v.changes == w.changes + n
    && v.probe.lastLinkUp == Some(if Odd(n) then linkUp else !linkUp)
    && (n > 0 ==> v.probe.grace == (if Odd(n) then linkUp else !linkUp) && v.probe.counter == 0 && v.results == [])
  }

  lemma FlappedOnceMore(c: Settings, w: World, u: World, now: int, linkUp: bool, n: nat)
    requires n > 0 && Flapped(w, u, linkUp, n - 1)
    ensures Flapped(w, Snapshotted(c, u, now, if Odd(n) then linkUp else !linkUp), linkUp, n)
  {
    OneFlap(c, u, now, if Odd(n) then linkUp else !linkUp);
  }

  lemma {:induction false} FlappingCounts(c: Settings, w: World, now: int, linkUp: bool, n: nat)
    requires Exclusive(w) && w.probe.inFlight && w.probe.lastLinkUp == Some(!linkUp)
    ensures Flapped(w, Run(c, w, Flapping(now, linkUp, n)), linkUp, n)
  {
    if n > 0 {
      FlappingCounts(c, w, now, linkUp, n - 1);
      FlappingLast(c, w, now, linkUp, n);
      FlappedOnceMore(c, w, Run(c, w, Flapping(now, linkUp, n - 1)), now, linkUp, n);
    }
  }

  lemma {:induction false} RunConcat(c: Settings, w: World, a: seq<Event>, b: seq<Event>)
    ensures Run(c, w, a + b) == Run(c, Run(c, w, a), b)
    decreases |b|
  {
    if b == [] {
      assert a + b == a;
    } else {
      assert (a + b)[..|a + b| - 1] == a + b[..|b| - 1];
      RunConcat(c, w, a, b[..|b| - 1]);
    }
  }

  lemma BelievedBehindFlapping(c: Settings, w: World, now: int)
    requires Exclusive(w) && w.probe.inFlight && w.probe.lastLinkUp == Some(false) && w.underWay[0].epoch == w.changes
    ensures var v := Run(c, w, Flapping(now, true, GENERATIONS));
      && v.underWay == w.underWay && v.changes == w.changes + GENERATIONS && v.underWay != []
      && var u := Finished(c, v, 0, false, now); u.results == [] && u.probe.counter == 1
  {
    FlappingCounts(c, w, now, true, GENERATIONS);
    StaleResults(c, Run(c, w, Flapping(now, true, GENERATIONS)), false, now);
  }

  /** The first snapshot of a daemon whose link is down, with its probe, and 2^32 link changes. */
  function WrappingRun(now: int): seq<Event> {
    [TakeSnapshot(now, false)] + Flapping(now, true, GENERATIONS)
  }

  /** Behind that run, from the start, the failure of the first probe is counted, although the
      probe began before all those changes and no probe has ended since. */
  lemma WrappedGenerationIsBelieved(c: Settings, now: int)
    ensures var v := Run(c, Start(now), WrappingRun(now));
      && v.underWay != [] && v.changes == v.underWay[0].epoch + GENERATIONS
      && var u := Finished(c, v, 0, false, now); u.results == [] && u.probe.counter == 1
  {
    var first := [TakeSnapshot(now, false)];
    assert first[..0] == [];
    RunConcat(c, Start(now), first, Flapping(now, true, GENERATIONS));
    BelievedBehindFlapping(c, Run(c, Start(now), first), now);
  }

  // ---------------------------------------------------------------- timing

  /** Time does not run backwards. */
  ghost predicate Onward(w: World, e: Event) {
    w.clock <= e.now
  }

  /** When the probe that decides next was started, or the earliest it can start. */
  function NextStart(w: World): int {
    if w.underWay != [] && w.underWay[0].epoch == w.changes then w.underWay[0].at else w.probe.nextProbe
  }

  /** Between a link-up and its first result, and between the pardoned first failure and the
      next result, the configured delays hold the probes back. */
  ghost predicate HeldBack(c: Settings, w: World)
  {
    LinkUp(w) ==>
      && (w.results == [] ==> NextStart(w) >= w.changedAt + c.settle)
      && (w.results == [false] ==> w.gracedAt.Some? && NextStart(w) >= w.gracedAt.value + c.retry)
  }

  lemma SnapshotKeepsHeldBack(c: Settings, w: World, now: int, linkUp: bool)
    requires Exclusive(w) && HeldBack(c, w) && w.clock <= now
    ensures HeldBack(c, Snapshotted(c, w, now, linkUp))
  {
    var v := Snapshotted(c, w, now, linkUp);
    if w.probe.inFlight {
      assert v.underWay == w.underWay;
    } else {
      assert w.underWay == [];
    }
  }

  lemma FinishKeepsHeldBack(c: Settings, w: World, reachable: bool, now: int)
    requires Exclusive(w) && HeldBack(c, w) && Truthful(c, w) && w.underWay != []
    requires w.changes - w.underWay[0].epoch < GENERATIONS
    ensures HeldBack(c, Finished(c, w, 0, reachable, now))
  {
    StaleResults(c, w, reachable, now);
  }

  lemma HappenKeepsHeldBack(c: Settings, w: World, e: Event)
    requires Exclusive(w) && HeldBack(c, w) && Truthful(c, w) && Recent(w, e) && Onward(w, e)
    ensures HeldBack(c, Happen(c, w, e))
  {
    match e
    case TakeSnapshot(now, linkUp) => SnapshotKeepsHeldBack(c, w, now, linkUp);
    case Finish(i, reachable, now) =>
      if i < |w.underWay| {
        FinishKeepsHeldBack(c, w, reachable, now);
      }
  }

  /** The events of the run come in order of time. */
  ghost predicate AllOnward(c: Settings, w: World, events: seq<Event>) {
    forall k :: 0 <= k < |events| ==> Onward(Run(c, w, events[..k]), events[k])
  }

  /** In every run no probe starts within the settle delay behind a link-up, and the first
      failure that can count comes from a probe started at least the retry delay later. */
  lemma {:induction false} ProbesAreHeldBack(c: Settings, now: int, events: seq<Event>)
    requires c.failures <= MAX_COUNTER && AllRecent(c, Start(now), events) && AllOnward(c, Start(now), events)
    ensures HeldBack(c, Run(c, Start(now), events))
    decreases |events|
  {
    if events != [] {
      var init, e := events[..|events| - 1], events[|events| - 1];
      assert forall k :: 0 <= k < |init| ==> init[..k] == events[..k];
      ProbesAreHeldBack(c, now, init);
      StateIsTruthful(c, now, init);
      AtMostOneProbe(c, now, init);
      var w := Run(c, Start(now), init);
      HappenKeepsHeldBack(c, w, e);
    }
  }
}
