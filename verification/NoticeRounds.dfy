/** What one round of the notification worker enqueues, notice by notice, and when the critical
    incidents are repeated, over whole runs. */
module NoticeRounds {
  import opened Common
  import opened Protocol
  import opened Notifications
  import opened NotificationRuns
  import Health

  // ---------------------------------------------------------------- what the worker is told

  /** Before the first snapshot there is nothing to tell; then there are its incidents, and the
      lost host ahead of them while the last update is fifteen seconds old or there is none. */
  lemma NotifiableMeans(s: Shared)
    ensures s.snapshot.None? ==> NotifiableIncidents(s) == []
    ensures s.snapshot.Some? ==>
      NotifiableIncidents(s)
      == (if s.age.Some? && s.age.value < 15_000 then []
          else [Incident(HostOffline, Critical, "HOST CONNECTION LOST")]) + s.snapshot.value.incidents
  {
    if s.snapshot.None? {
      WithoutKeeps(ActiveIncidents(s), HostOffline);
      var active := ActiveIncidents(s);
      assert active == [] || active == [OFFLINE];
      if active != [] {
        assert active[..|active| - 1] == [];
      }
    }
  }

  // ---------------------------------------------------------------- which incidents a round takes up

  predicate Rises(before: HealthLevel, now: HealthLevel) {
    (before == Healthy && now != Healthy) || (before == Warning && now == Critical)
  }

  predicate Wanted(c: NtfyConfig, level: HealthLevel) {
    (level == Warning && c.notifyWarning) || (level == Critical && c.notifyCritical)
  }

  /** New or risen, at a level that is wanted. */
  ghost function IsNews(c: NtfyConfig, previous: seq<Incident>): Incident -> bool {
    (now: Incident) =>
      Wanted(c, now.level)
      && forall k :: 0 <= k < |previous| && previous[k].id == now.id ==> Rises(previous[k].level, now.level)
  }

  const IS_CRITICAL: Incident -> bool := (now: Incident) => now.level == Critical

  /** Not among these any more. */
  ghost function IsGone(current: seq<Incident>): Incident -> bool {
    (before: Incident) => forall k :: 0 <= k < |current| ==> current[k].id != before.id
  }

  function StartNotice(c: NtfyConfig): Incident -> Notice {
    (x: Incident) => Notice(x.message, if x.level == Critical then c.criticalPriority else c.warningPriority, false)
  }

  function RepeatNotice(c: NtfyConfig): Incident -> Notice {
    (x: Incident) => Notice("STILL ACTIVE: " + x.message, c.criticalPriority, false)
  }

  function RecoveryNotice(c: NtfyConfig): Incident -> Notice {
    (x: Incident) => Notice("RECOVERED: " + x.message, c.recoveryPriority, true)
  }

  lemma AnnouncedIsNews(c: NtfyConfig, previous: seq<Incident>, incident: Incident)
    requires Health.Distinct(previous)
    ensures Announced(c, previous, incident) <==> IsNews(c, previous)(incident)
  {
    var before := Lookup(previous, incident.id);
    if before.Some? {
      var k :| 0 <= k < |previous| && previous[k] == before.value;
      assert forall n :: 0 <= n < |previous| && previous[n].id == incident.id ==> n == k;
    }
  }

  lemma GoneIsAbsent(current: seq<Incident>, incident: Incident)
    ensures Present(current, incident.id) <==> !IsGone(current)(incident)
  {
    var found := Lookup(current, incident.id);
    if found.Some? {
      var k :| 0 <= k < |current| && current[k] == found.value;
    }
  }

  lemma {:induction false} StartedPicks(c: NtfyConfig, previous: seq<Incident>, current: seq<Incident>)
    returns (at: seq<nat>)
    requires Health.Distinct(previous)
    ensures Picks(current, IsNews(c, previous), StartNotice(c), Rendered(c, Started(c, previous, current)), at)
  {
    if current == [] {
      at := [];
    } else {
      var init, last := current[..|current| - 1], current[|current| - 1];
      at := StartedPicks(c, previous, init);
      AnnouncedIsNews(c, previous, last);
      var notices := Rendered(c, Started(c, previous, init));
      PicksOneMore(init, IsNews(c, previous), StartNotice(c), notices, at, last);
      assert init + [last] == current;
      if Announced(c, previous, last) {
        at := at + [|init|];
        assert Rendered(c, Started(c, previous, current)) == notices + [StartNotice(c)(last)];
      } else {
        assert Started(c, previous, current) == Started(c, previous, init);
      }
    }
  }

  lemma {:induction false} StillActivePicks(c: NtfyConfig, current: seq<Incident>) returns (at: seq<nat>)
    ensures Picks(current, IS_CRITICAL, RepeatNotice(c), Rendered(c, StillActive(current)), at)
  {
    if current == [] {
      at := [];
    } else {
      var init, last := current[..|current| - 1], current[|current| - 1];
      at := StillActivePicks(c, init);
      var notices := Rendered(c, StillActive(init));
      PicksOneMore(init, IS_CRITICAL, RepeatNotice(c), notices, at, last);
      assert init + [last] == current;
      if last.level == Critical {
        at := at + [|init|];
        assert Rendered(c, StillActive(current)) == notices + [RepeatNotice(c)(last)];
      } else {
        assert StillActive(current) == StillActive(init);
      }
    }
  }

  lemma {:induction false} EndedPicks(c: NtfyConfig, previous: seq<Incident>, current: seq<Incident>)
    returns (at: seq<nat>)
    ensures Picks(previous, IsGone(current), RecoveryNotice(c), Rendered(c, Ended(previous, current)), at)
  {
    if previous == [] {
      at := [];
    } else {
      var init, last := previous[..|previous| - 1], previous[|previous| - 1];
      at := EndedPicks(c, init, current);
      GoneIsAbsent(current, last);
      var notices := Rendered(c, Ended(init, current));
      PicksOneMore(init, IsGone(current), RecoveryNotice(c), notices, at, last);
      assert init + [last] == previous;
      if Present(current, last.id) {
        assert Ended(previous, current) == Ended(init, current);
      } else {
        at := at + [|init|];
        assert Rendered(c, Ended(previous, current)) == notices + [RecoveryNotice(c)(last)];
      }
    }
  }

  // ---------------------------------------------------------------- the whole round

  ghost predicate HasCritical(incidents: seq<Incident>) {
    exists k :: 0 <= k < |incidents| && incidents[k].level == Critical
  }

  /** When the next repeat is due, for this interval. */
  function DueAt(w: Worker, i: Input, seconds: nat): int {
    match w.nextRepeat
    case Some(at) => at
    case None => i.askedAt + 1_000 * seconds
  }

  /** The round repeats its critical incidents. */
  ghost predicate RepeatIsDue(w: Worker, i: Input)
  {
    && i.config.Some? && i.config.value.enabled && i.config.value.repeatCriticalSeconds.Some?
    && HasCritical(NotifiableIncidents(i.shared))
    && i.checkedAt >= DueAt(w, i, i.config.value.repeatCriticalSeconds.value)
  }

  lemma {:induction false} CriticalsAreSome(current: seq<Incident>)
    ensures StillActive(current) != [] <==> HasCritical(current)
  {
    if current != [] {
      var init, last := current[..|current| - 1], current[|current| - 1];
      CriticalsAreSome(init);
      if HasCritical(init) {
        var k :| 0 <= k < |init| && init[k].level == Critical;
        assert current[k].level == Critical;
      }
      if last.level == Critical {
        assert current[|init|].level == Critical;
      }
    }
  }

  lemma RepeatsWhenDue(w: Worker, i: Input)
    requires Enabled(i)
    ensures Repeats(w, i) <==> RepeatIsDue(w, i)
  {
    CriticalsAreSome(NotifiableIncidents(i.shared));
  }

  /** Everything a round enqueues, notice by notice: the test notice if one was asked for, a start
      notice for each present incident that is new or has risen to a wanted level, a repeat for
      each critical one if repeats are due, and a recovery notice for each previous incident that
      is gone if recoveries are wanted; in this order, and each kind in the order of the incidents.
      While ntfy is off, nothing. */
  lemma RoundEnqueues(w: Worker, i: Input)
    returns (starts: seq<nat>, repeats: seq<nat>, recoveries: seq<nat>, a: seq<Notice>, b: seq<Notice>, d: seq<Notice>)
    requires Health.Distinct(w.previous)
    ensures !(i.config.Some? && i.config.value.enabled) ==> Enqueued(w, i) == []
    ensures i.config.Some? && i.config.value.enabled ==>
      var c, current := i.config.value, NotifiableIncidents(i.shared);
      && Enqueued(w, i)
         == (if i.test then [Notice("Servatory test notification", Default, false)] else []) + a + b + d
      && Picks(current, IsNews(c, w.previous), StartNotice(c), a, starts)
      && (if RepeatIsDue(w, i) then Picks(current, IS_CRITICAL, RepeatNotice(c), b, repeats) else b == [])
      && (if c.notifyRecovery then Picks(w.previous, IsGone(current), RecoveryNotice(c), d, recoveries) else d == [])
  {
    starts, repeats, recoveries, a, b, d := [], [], [], [], [], [];
    if Enabled(i) {
      var c, current := i.config.value, NotifiableIncidents(i.shared);
      RepeatsWhenDue(w, i);
      starts := StartedPicks(c, w.previous, current);
      a := Rendered(c, Started(c, w.previous, current));
      if Repeats(w, i) {
        repeats := StillActivePicks(c, current);
        b := Rendered(c, StillActive(current));
      }
      if c.notifyRecovery {
        recoveries := EndedPicks(c, w.previous, current);
        d := Rendered(c, Ended(w.previous, current));
      }
      RenderedInParts(w, i, a, b, d);
    }
  }

  lemma RenderedInParts(w: Worker, i: Input, a: seq<Notice>, b: seq<Notice>, d: seq<Notice>)
    requires Enabled(i)
    requires var c, current := i.config.value, NotifiableIncidents(i.shared);
      && a == Rendered(c, Started(c, w.previous, current))
      && b == Rendered(c, if Repeats(w, i) then StillActive(current) else [])
      && d == Rendered(c, if c.notifyRecovery then Ended(w.previous, current) else [])
    ensures Enqueued(w, i)
         == (if i.test then [Notice("Servatory test notification", Default, false)] else []) + a + b + d
  {
    var c, current := i.config.value, NotifiableIncidents(i.shared);
    var tested: seq<Entry> := if i.test then [Test] else [];
    var started := Started(c, w.previous, current);
    var repeated := if Repeats(w, i) then StillActive(current) else [];
    var recalled := if c.notifyRecovery then Ended(w.previous, current) else [];
    EntriesSplit(w, i, tested, started, repeated, recalled);
    RenderedTogether(c, tested, started);
    RenderedTogether(c, tested + started, repeated);
    RenderedTogether(c, tested + started + repeated, recalled);
    assert Rendered(c, tested) == if i.test then [Render(c, Test)] else [];
  }

  lemma RenderedTogether(c: NtfyConfig, a: seq<Entry>, b: seq<Entry>)
    ensures Rendered(c, a + b) == Rendered(c, a) + Rendered(c, b)
  {
  }

  /** The oldest notice is published exactly if ntfy is on, there is one, and publishing succeeds; it
      leaves the queue, and the newest eight of the others stay. */
  lemma RoundPublishes(w: Worker, i: Input)
    requires |w.pending| <= 8
    ensures var queue := LastOf(w.pending + Enqueued(w, i), 8);
      if i.config.Some? && i.config.value.enabled && i.publishes && queue != [] then
        Published(w, i) == [queue[0]] && Round(w, i).pending == queue[1..]
      else Published(w, i) == [] && Round(w, i).pending == queue
  {
    PushAllKeepsNewest(w.pending, Enqueued(w, i));
  }

  // ---------------------------------------------------------------- how often an identity is repeated

  function AgainsOf(entries: seq<Entry>, id: IncidentId): nat
  {
    if entries == [] then 0
    else
      var last := entries[|entries| - 1];
      AgainsOf(entries[..|entries| - 1], id) + if last.Again? && last.incident.id == id then 1 else 0
  }

  lemma {:induction false} AgainsConcat(a: seq<Entry>, b: seq<Entry>, id: IncidentId)
    ensures AgainsOf(a + b, id) == AgainsOf(a, id) + AgainsOf(b, id)
    decreases |b|
  {
    if b == [] {
      assert a + b == a;
    } else {
      assert (a + b)[..|a + b| - 1] == a + b[..|b| - 1];
      AgainsConcat(a, b[..|b| - 1], id);
    }
  }

  ghost predicate NoAgain(entries: seq<Entry>) {
    forall k :: 0 <= k < |entries| ==> !entries[k].Again?
  }

  lemma {:induction false} NoAgainIsNone(entries: seq<Entry>, id: IncidentId)
    requires NoAgain(entries)
    ensures AgainsOf(entries, id) == 0
  {
    if entries != [] {
      NoAgainIsNone(entries[..|entries| - 1], id);
    }
  }

  lemma {:induction false} StartsAreNoAgain(c: NtfyConfig, previous: seq<Incident>, current: seq<Incident>)
    ensures NoAgain(Started(c, previous, current))
    decreases |current|
  {
    if current != [] {
      StartsAreNoAgain(c, previous, current[..|current| - 1]);
    }
  }

  lemma {:induction false} EndsAreNoAgain(previous: seq<Incident>, current: seq<Incident>)
    ensures NoAgain(Ended(previous, current))
    decreases |previous|
  {
    if previous != [] {
      EndsAreNoAgain(previous[..|previous| - 1], current);
    }
  }

  lemma {:induction false} CriticalsAreRepeated(current: seq<Incident>, id: IncidentId)
    requires Health.Distinct(current)
    ensures AgainsOf(StillActive(current), id)
         == if exists k :: 0 <= k < |current| && current[k].id == id && current[k].level == Critical then 1 else 0
    decreases |current|
  {
    if current != [] {
      var init, last := current[..|current| - 1], current[|current| - 1];
      CriticalsAreRepeated(init, id);
      AgainsConcat(StillActive(init), if last.level == Critical then [Again(last)] else [], id);
      assert [Again(last)][..0] == [] && AgainsOf([Again(last)], id) == if last.id == id then 1 else 0;
      assert forall k :: 0 <= k < |init| ==> current[k] == init[k] && current[k].id != last.id;
      assert current[|init|] == last;
    }
  }

  /** In a round that repeats, an identity is repeated once if it is present at the level Critical
      and otherwise not; in any other round it is not. */
  lemma RoundRepeats(w: Worker, i: Input, id: IncidentId)
    requires FromRules(i.shared)
    ensures var current := NotifiableIncidents(i.shared);
      AgainsOf(Entries(w, i), id)
      == if RepeatIsDue(w, i) && exists k :: 0 <= k < |current| && current[k].id == id && current[k].level == Critical
         then 1 else 0
  {
    if Enabled(i) {
      var c, current := i.config.value, NotifiableIncidents(i.shared);
      NotifiableDistinct(i.shared);
      RepeatsWhenDue(w, i);
      var tested: seq<Entry> := if i.test then [Test] else [];
      var started := Started(c, w.previous, current);
      var repeated := if Repeats(w, i) then StillActive(current) else [];
      var recalled := if c.notifyRecovery then Ended(w.previous, current) else [];
      EntriesSplit(w, i, tested, started, repeated, recalled);
      StartsAreNoAgain(c, w.previous, current);
      EndsAreNoAgain(w.previous, current);
      OnlyRepeatsAreAgain(tested, started, repeated, recalled, id);
      CriticalsAreRepeated(current, id);
    }
  }

  lemma OnlyRepeatsAreAgain(tested: seq<Entry>, started: seq<Entry>, repeated: seq<Entry>, recalled: seq<Entry>,
                            id: IncidentId)
    requires NoAgain(tested) && NoAgain(started) && NoAgain(recalled)
    ensures AgainsOf(tested + started + repeated + recalled, id) == AgainsOf(repeated, id)
  {
    AgainsConcat(tested, started, id);
    AgainsConcat(tested + started, repeated, id);
    AgainsConcat(tested + started + repeated, recalled, id);
    NoAgainIsNone(tested, id);
    NoAgainIsNone(started, id);
    NoAgainIsNone(recalled, id);
  }

  // ---------------------------------------------------------------- the timer

  /** The timer behind a round: untouched while ntfy is off; none without an interval or without a
      critical incident; the interval behind a repeat; and otherwise what it was, or the interval
      ahead if there was none. */
  lemma TimerAfterRound(w: Worker, i: Input)
    ensures var next := Round(w, i).nextRepeat;
      if !(i.config.Some? && i.config.value.enabled) then next == w.nextRepeat
      else if i.config.value.repeatCriticalSeconds.None? || !HasCritical(NotifiableIncidents(i.shared)) then
        next == None
      else if RepeatIsDue(w, i) then next == Some(i.rearmedAt + 1_000 * i.config.value.repeatCriticalSeconds.value)
      else next == Some(DueAt(w, i, i.config.value.repeatCriticalSeconds.value))
  {
    RoundTimer(w, i);
    if Enabled(i) {
      NextTimer(w, i, HasCritical(NotifiableIncidents(i.shared)));
      RepeatsWhenDue(w, i);
    }
  }

  lemma NextTimer(w: Worker, i: Input, critical: bool)
    requires Enabled(i) && critical == HasCritical(NotifiableIncidents(i.shared))
    ensures var seconds, next := i.config.value.repeatCriticalSeconds, NextRepeat(w, i);
      if seconds.None? || !critical then next == None
      else if Repeats(w, i) then next == Some(i.rearmedAt + 1_000 * seconds.value)
      else next == Some(DueAt(w, i, seconds.value))
  {
    CriticalsAreSome(NotifiableIncidents(i.shared));
  }

  /** ntfy is on with this interval, and an incident is critical. */
  ghost predicate Urging(i: Input, seconds: nat) {
    && i.config.Some? && i.config.value.enabled && i.config.value.repeatCriticalSeconds == Some(seconds)
    && HasCritical(NotifiableIncidents(i.shared))
  }

  ghost predicate RoundAt(ws: seq<Worker>, inputs: seq<Input>, n: nat) {
    n < |inputs| && n + 1 < |ws| && ws[n + 1] == Round(ws[n], inputs[n])
  }

  /** The worker in front of each round of a run, and behind the last. */
  ghost predicate WorkersOf(ws: seq<Worker>, inputs: seq<Input>) {
    |ws| == |inputs| + 1 && ws[0] == IDLE && forall n :: 0 <= n < |inputs| ==> RoundAt(ws, inputs, n)
  }

  lemma OneWorkerMore(ws: seq<Worker>, inputs: seq<Input>, i: Input) returns (more: seq<Worker>)
    requires WorkersOf(ws, inputs)
    ensures WorkersOf(more, inputs + [i]) && more[|inputs| + 1] == Round(ws[|inputs|], i)
  {
    more := ws + [Round(ws[|inputs|], i)];
    forall n | 0 <= n <= |inputs| ensures RoundAt(more, inputs + [i], n) {
      assert n < |inputs| ==> RoundAt(ws, inputs, n);
    }
  }

  /** Every run has them. */
  lemma {:induction false} RunHasWorkers(inputs: seq<Input>) returns (ws: seq<Worker>)
    ensures WorkersOf(ws, inputs) && ws[|inputs|] == Rounds(IDLE, inputs)
    decreases |inputs|
  {
    if inputs == [] {
      ws := [IDLE];
    } else {
      var init, i := inputs[..|inputs| - 1], inputs[|inputs| - 1];
      var before := RunHasWorkers(init);
      ws := OneWorkerMore(before, init, i);
      assert init + [i] == inputs;
    }
  }

  lemma TimerStaysNear(w: Worker, i: Input, seconds: nat, clock: int)
    requires w.nextRepeat.Some? ==> w.nextRepeat.value <= clock + 1_000 * seconds
    requires clock <= i.askedAt <= i.checkedAt <= i.rearmedAt && (Enabled(i) ==> RepeatsEvery(i, seconds))
    ensures var next := Round(w, i).nextRepeat; next.Some? ==> next.value <= i.rearmedAt + 1_000 * seconds
  {
    TimerAfterRound(w, i);
  }

  /** The timer is never more than the interval ahead. */
  lemma {:induction false} TimerIsNear(ws: seq<Worker>, inputs: seq<Input>, seconds: nat, n: nat)
    requires WorkersOf(ws, inputs) && Steady(inputs, seconds) && n < |inputs|
    ensures ws[n + 1].nextRepeat.Some? ==> ws[n + 1].nextRepeat.value <= inputs[n].rearmedAt + 1_000 * seconds
  {
    if n > 0 {
      TimerIsNear(ws, inputs, seconds, n - 1);
    }
    assert RoundAt(ws, inputs, n);
    TimerStaysNear(ws[n], inputs[n], seconds, if n > 0 then inputs[n - 1].rearmedAt else inputs[n].askedAt);
  }

  lemma UrgingArms(w: Worker, i: Input, seconds: nat)
    requires Urging(i, seconds)
    ensures Round(w, i).nextRepeat.Some?
    ensures w.nextRepeat.Some? ==>
      && (RepeatIsDue(w, i) <==> i.checkedAt >= w.nextRepeat.value)
      && (!RepeatIsDue(w, i) ==> Round(w, i).nextRepeat == w.nextRepeat)
  {
    TimerAfterRound(w, i);
  }

  /** Until the armed timer runs out, it stays. */
  ghost predicate StaysAt(ws: seq<Worker>, inputs: seq<Input>, n: nat)
    requires |ws| == |inputs| + 1 && n < |inputs|
  {
    var timer := ws[n].nextRepeat;
    && (timer.Some? && inputs[n].checkedAt < timer.value ==> ws[n + 1].nextRepeat == timer)
    && (timer.Some? && inputs[n].checkedAt >= timer.value ==> RepeatIsDue(ws[n], inputs[n]))
  }

  lemma UrgingStays(ws: seq<Worker>, inputs: seq<Input>, seconds: nat, n: nat)
    requires WorkersOf(ws, inputs) && n < |inputs| && Urging(inputs[n], seconds)
    ensures StaysAt(ws, inputs, n) && ws[n + 1].nextRepeat.Some?
  {
    assert RoundAt(ws, inputs, n);
    UrgingArms(ws[n], inputs[n], seconds);
  }

  lemma {:induction false} RepeatedBy(ws: seq<Worker>, inputs: seq<Input>, n: nat, k: nat) returns (m: nat)
    requires |ws| == |inputs| + 1 && n <= k < |inputs|
    requires forall r :: n <= r <= k ==> StaysAt(ws, inputs, r)
    requires ws[n].nextRepeat.Some? && ws[n].nextRepeat.value <= inputs[k].checkedAt
    ensures n <= m <= k && RepeatIsDue(ws[m], inputs[m])
    decreases k - n
  {
    m := n;
    assert StaysAt(ws, inputs, n);
    if inputs[n].checkedAt < ws[n].nextRepeat.value {
      m := RepeatedBy(ws, inputs, n + 1, k);
    }
  }

  /** Critical incidents are repeated in time: in every run, if ntfy is on with the interval and an
      incident is critical in every round from `j` to `k`, and the interval has passed between
      them, then one of the rounds behind `j` repeats. */
  lemma CriticalsAreRepeatedInTime(ws: seq<Worker>, inputs: seq<Input>, seconds: nat, j: nat, k: nat)
    returns (n: nat)
    requires WorkersOf(ws, inputs) && Steady(inputs, seconds) && j < k < |inputs|
    requires forall r :: j <= r <= k ==> Urging(inputs[r], seconds)
    requires inputs[k].checkedAt >= inputs[j].rearmedAt + 1_000 * seconds
    ensures j < n <= k && RepeatIsDue(ws[n], inputs[n])
  {
    forall r | j <= r <= k ensures StaysAt(ws, inputs, r) {
      UrgingStays(ws, inputs, seconds, r);
    }
    TimerIsNear(ws, inputs, seconds, j);
    UrgingStays(ws, inputs, seconds, j);
    n := RepeatedBy(ws, inputs, j + 1, k);
  }
}
