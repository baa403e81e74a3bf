/** What the notification worker promises over whole runs: one start and one recovery notice
    per incident, a queue that keeps order, repeats that keep their distance. */
module NotificationRuns {
  import opened Common
  import opened Protocol
  import opened Notifications
  import Health

  function Rounds(w: Worker, inputs: seq<Input>): Worker
  {
    if inputs == [] then w else Round(Rounds(w, inputs[..|inputs| - 1]), inputs[|inputs| - 1])
  }

  const IDLE := Worker([], [], None)

  // ---------------------------------------------------------------- distinct identities

  /** The snapshot's incidents are those of validated rules. */
  ghost predicate FromRules(s: Shared)
  {
    s.snapshot.Some? ==>
      exists rules ::
        Health.AcceptedUpTo(Health.Ids(rules), |rules|) && s.snapshot.value.incidents == Health.Raised(rules)
  }

  lemma NotifiableDistinct(s: Shared)
    requires FromRules(s)
    ensures Health.Distinct(NotifiableIncidents(s))
    ensures Present(NotifiableIncidents(s), HostOffline)
        <==> s.snapshot.Some? && (s.age.None? || s.age.value >= STALE_AFTER)
  {
    if s.snapshot.Some? {
      var rules :|
        Health.AcceptedUpTo(Health.Ids(rules), |rules|) && s.snapshot.value.incidents == Health.Raised(rules);
      Health.RaisedDistinct(rules);
      var incidents := s.snapshot.value.incidents;
      assert forall k :: 0 <= k < |incidents| ==> incidents[k].id != HostOffline;
      assert s.age.None? || s.age.value >= STALE_AFTER ==> NotifiableIncidents(s)[0] == OFFLINE;
    } else {
      WithoutKeeps(ActiveIncidents(s), HostOffline);
    }
  }

  lemma {:induction false} WithoutKeeps(incidents: seq<Incident>, id: IncidentId)
    ensures var r := Without(incidents, id);
      && (forall k :: 0 <= k < |r| ==> r[k].id != id && r[k] in incidents)
      && |r| <= |incidents|
      && (Health.Distinct(incidents) ==> Health.Distinct(r))
    decreases |incidents|
  {
    if incidents != [] {
      var init, last := incidents[..|incidents| - 1], incidents[|incidents| - 1];
      WithoutKeeps(init, id);
      assert forall x :: x in Without(init, id) ==> x in init;
    }
  }

  // ---------------------------------------------------------------- what one round says of one identity

  function StartsOf(entries: seq<Entry>, id: IncidentId): nat
  {
    if entries == [] then 0
    else
      var last := entries[|entries| - 1];
      StartsOf(entries[..|entries| - 1], id) + if last.Began? && last.incident.id == id then 1 else 0
  }

  function EndsOf(entries: seq<Entry>, id: IncidentId): nat
  {
    if entries == [] then 0
    else
      var last := entries[|entries| - 1];
      EndsOf(entries[..|entries| - 1], id) + if last.Over? && last.incident.id == id then 1 else 0
  }

  lemma {:induction false} NoticesConcat(a: seq<Entry>, b: seq<Entry>, id: IncidentId)
    ensures StartsOf(a + b, id) == StartsOf(a, id) + StartsOf(b, id)
    ensures EndsOf(a + b, id) == EndsOf(a, id) + EndsOf(b, id)
    decreases |b|
  {
    if b == [] {
      assert a + b == a;
    } else {
      assert (a + b)[..|a + b| - 1] == a + b[..|b| - 1];
      NoticesConcat(a, b[..|b| - 1], id);
    }
  }

  lemma NoticesOfOne(e: Entry, id: IncidentId)
    ensures StartsOf([e], id) == if e.Began? && e.incident.id == id then 1 else 0
    ensures EndsOf([e], id) == if e.Over? && e.incident.id == id then 1 else 0
  {
    assert [e][..0] == [];
  }

  lemma {:induction false} LookupLast(init: seq<Incident>, last: Incident, id: IncidentId)
    ensures Lookup(init + [last], id)
         == if Present(init, id) then Lookup(init, id) else if last.id == id then Some(last) else None
  {
    if init == [] {
      assert init + [last] == [last];
    } else {
      assert (init + [last])[1..] == init[1..] + [last];
      LookupLast(init[1..], last, id);
    }
  }

  lemma {:induction false} StartedNotices(c: NtfyConfig, previous: seq<Incident>, current: seq<Incident>,
                                          id: IncidentId)
    requires Health.Distinct(current)
    ensures EndsOf(Started(c, previous, current), id) == 0
    ensures StartsOf(Started(c, previous, current), id)
         == if Present(current, id) && Announced(c, previous, Lookup(current, id).value) then 1 else 0
    decreases |current|
  {
    if current != [] {
      var init, last := current[..|current| - 1], current[|current| - 1];
      StartedNotices(c, previous, init, id);
      LookupLast(init, last, id);
      assert init + [last] == current;
      NoticesConcat(Started(c, previous, init), if Announced(c, previous, last) then [Began(last)] else [], id);
      NoticesOfOne(Began(last), id);
    }
  }

  lemma {:induction false} EndedNotices(previous: seq<Incident>, current: seq<Incident>, id: IncidentId)
    requires Health.Distinct(previous)
    ensures StartsOf(Ended(previous, current), id) == 0
    ensures EndsOf(Ended(previous, current), id) == if Present(previous, id) && !Present(current, id) then 1 else 0
    decreases |previous|
  {
    if previous != [] {
      var init, last := previous[..|previous| - 1], previous[|previous| - 1];
      EndedNotices(init, current, id);
      LookupLast(init, last, id);
      assert init + [last] == previous;
      NoticesConcat(Ended(init, current), if Present(current, last.id) then [] else [Over(last)], id);
      NoticesOfOne(Over(last), id);
    }
  }

  lemma {:induction false} RepeatNotices(current: seq<Incident>, id: IncidentId)
    ensures StartsOf(StillActive(current), id) == 0 && EndsOf(StillActive(current), id) == 0
    decreases |current|
  {
    if current != [] {
      var init, last := current[..|current| - 1], current[|current| - 1];
      RepeatNotices(init, id);
      NoticesConcat(StillActive(init), if last.level == Critical then [Again(last)] else [], id);
      NoticesOfOne(Again(last), id);
    }
  }

  lemma NoticesOfFour(a: seq<Entry>, b: seq<Entry>, c: seq<Entry>, d: seq<Entry>, id: IncidentId)
    ensures StartsOf(a + b + c + d, id) == StartsOf(a, id) + StartsOf(b, id) + StartsOf(c, id) + StartsOf(d, id)
    ensures EndsOf(a + b + c + d, id) == EndsOf(a, id) + EndsOf(b, id) + EndsOf(c, id) + EndsOf(d, id)
  {
    NoticesConcat(a, b, id);
    NoticesConcat(a + b, c, id);
    NoticesConcat(a + b + c, d, id);
  }

  /** Only the announcements start and only the recalls end. */
  lemma EntriesNotices(w: Worker, i: Input, id: IncidentId)
    requires Enabled(i) && Health.Distinct(w.previous)
    ensures var c, current := i.config.value, NotifiableIncidents(i.shared);
      && StartsOf(Entries(w, i), id) == StartsOf(Started(c, w.previous, current), id)
      && (Health.Distinct(current) ==>
            EndsOf(Entries(w, i), id) == if c.notifyRecovery then EndsOf(Ended(w.previous, current), id) else 0)
  {
    var c, current := i.config.value, NotifiableIncidents(i.shared);
    var tested := if i.test then [Test] else [];
    var started := Started(c, w.previous, current);
    var repeated := if Repeats(w, i) then StillActive(current) else [];
    var recalled := if c.notifyRecovery then Ended(w.previous, current) else [];
    EntriesSplit(w, i, tested, started, repeated, recalled);
    NoticesOfFour(tested, started, repeated, recalled, id);
    NoticesOfOne(Test, id);
    RepeatNotices(current, id);
    EndedNotices(w.previous, current, id);
    if Health.Distinct(current) {
      StartedNotices(c, w.previous, current, id);
    }
  }

  /** In one round an identity gets one start notice if it appeared or its level rose, at a
      selected severity, and none otherwise, whatever else about it changed; it gets one
      recovery notice if it disappeared and recoveries are wanted, and none otherwise. */
  lemma RoundNotices(w: Worker, i: Input, id: IncidentId)
    requires Health.Distinct(w.previous) && FromRules(i.shared)
    ensures var current := NotifiableIncidents(i.shared);
      var before, now := Lookup(w.previous, id), Lookup(current, id);
      && StartsOf(Entries(w, i), id) ==
           (if && Enabled(i) && now.Some? && Selected(i.config.value, now.value.level)
               && (before.None? || before.value.level.Priority() < now.value.level.Priority()) then 1 else 0)
      && EndsOf(Entries(w, i), id) ==
           (if Enabled(i) && i.config.value.notifyRecovery && before.Some? && now.None? then 1 else 0)
  {
    if Enabled(i) {
      var c, current := i.config.value, NotifiableIncidents(i.shared);
      NotifiableDistinct(i.shared);
      EntriesNotices(w, i, id);
      StartedNotices(c, w.previous, current, id);
      EndedNotices(w.previous, current, id);
    }
  }

  // ---------------------------------------------------------------- the balance over whole runs

  /** Over a run, for one identity: appearances announced and not announced, disappearances
      announced and not announced. */
  datatype Ledger = Ledger(starts: nat, silentStarts: nat, ends: nat, silentEnds: nat)

  predicate Appears(w: Worker, i: Input, id: IncidentId) {
    !Present(w.previous, id) && Present(NotifiableIncidents(i.shared), id)
  }

  predicate Disappears(w: Worker, i: Input, id: IncidentId) {
    Present(w.previous, id) && !Present(NotifiableIncidents(i.shared), id)
  }

  function Booked(l: Ledger, w: Worker, i: Input, id: IncidentId): Ledger
  {
    var starts := if Present(w.previous, id) then 0 else StartsOf(Entries(w, i), id);
    var ends := EndsOf(Entries(w, i), id);
    Ledger(l.starts + starts, l.silentStarts + (if Appears(w, i, id) && starts == 0 then 1 else 0),
           l.ends + ends, l.silentEnds + (if Disappears(w, i, id) && ends == 0 then 1 else 0))
  }

  function Books(w: Worker, inputs: seq<Input>, id: IncidentId): Ledger
  {
    if inputs == [] then Ledger(0, 0, 0, 0)
    else
      var init := inputs[..|inputs| - 1];
      Booked(Books(w, init, id), Rounds(w, init), inputs[|inputs| - 1], id)
  }

  ghost predicate AllFromRules(inputs: seq<Input>) {
    forall k :: 0 <= k < |inputs| ==> FromRules(inputs[k].shared)
  }

  lemma {:induction false} PreviousDistinct(inputs: seq<Input>)
    requires AllFromRules(inputs)
    ensures Health.Distinct(Rounds(IDLE, inputs).previous)
  {
    if inputs != [] {
      NotifiableDistinct(inputs[|inputs| - 1].shared);
    }
  }

  /** Over every run, whatever the configuration does meanwhile: appearances less disappearances
      of an identity, announced or not, are 1 while it is active and 0 while it is not. */
  lemma {:induction false} LedgerBalances(inputs: seq<Input>, id: IncidentId)
    requires AllFromRules(inputs)
    ensures var l := Books(IDLE, inputs, id);
      l.starts + l.silentStarts - l.ends - l.silentEnds == if Present(Rounds(IDLE, inputs).previous, id) then 1 else 0
    decreases |inputs|
  {
    if inputs != [] {
      var init, i := inputs[..|inputs| - 1], inputs[|inputs| - 1];
      LedgerBalances(init, id);
      PreviousDistinct(init);
      RoundNotices(Rounds(IDLE, init), i, id);
    }
  }

  /** ntfy is on, with recoveries and both severities. */
  predicate Attentive(i: Input) {
    Enabled(i) && i.config.value.notifyRecovery && i.config.value.notifyWarning && i.config.value.notifyCritical
  }

  predicate AllAttentive(inputs: seq<Input>) {
    forall k :: 0 <= k < |inputs| ==> Attentive(inputs[k])
  }

  predicate AppearsHealthyAt(w: Worker, i: Input, id: IncidentId) {
    Appears(w, i, id) && Lookup(NotifiableIncidents(i.shared), id).value.level == Healthy
  }

  /** The identity appeared at the level Healthy in some round. */
  predicate AppearsHealthy(inputs: seq<Input>, id: IncidentId)
  {
    inputs != [] &&
    (|| AppearsHealthy(inputs[..|inputs| - 1], id)
     || AppearsHealthyAt(Rounds(IDLE, inputs[..|inputs| - 1]), inputs[|inputs| - 1], id))
  }

  lemma AttentiveRound(l: Ledger, w: Worker, i: Input, id: IncidentId)
    requires Health.Distinct(w.previous) && FromRules(i.shared) && Attentive(i)
    ensures var m := Booked(l, w, i, id);
      && m.silentEnds == l.silentEnds
      && m.silentStarts == l.silentStarts + if AppearsHealthyAt(w, i, id) then 1 else 0
  {
    RoundNotices(w, i, id);
  }

  lemma {:induction false} SilenceMeansHealthy(inputs: seq<Input>, id: IncidentId)
    requires AllFromRules(inputs) && AllAttentive(inputs)
    ensures var l := Books(IDLE, inputs, id);
      l.silentEnds == 0 && (l.silentStarts > 0 <==> AppearsHealthy(inputs, id))
    decreases |inputs|
  {
    if inputs != [] {
      var init, i := inputs[..|inputs| - 1], inputs[|inputs| - 1];
      SilenceMeansHealthy(init, id);
      PreviousDistinct(init);
      AttentiveRound(Books(IDLE, init, id), Rounds(IDLE, init), i, id);
    }
  }

  /** With ntfy on, recoveries on and both severities selected, appearance notices less recovery
      notices are 1 exactly while an identity is active, if and only if the identity never
      appeared at the level Healthy: that severity is allowed for a rule but announced by none. */
  lemma NotificationBalance(inputs: seq<Input>, id: IncidentId)
    requires AllFromRules(inputs) && AllAttentive(inputs)
    ensures var l := Books(IDLE, inputs, id);
      (l.starts - l.ends == if Present(Rounds(IDLE, inputs).previous, id) then 1 else 0)
      <==> !AppearsHealthy(inputs, id)
  {
    LedgerBalances(inputs, id);
    SilenceMeansHealthy(inputs, id);
  }

  /** A snapshot in which a rule of severity Healthy fires, and one in which it does not. */
  lemma HealthyRule(name: string) returns (firing: Shared, quiet: Shared)
    requires Health.WellFormed(name)
    ensures FromRules(firing) && NotifiableIncidents(firing) == [Incident(Rule(name), Healthy, "")]
    ensures FromRules(quiet) && NotifiableIncidents(quiet) == []
  {
    var rules := [Health.Rule(name, Healthy, true, "")];
    assert rules[..0] == [];
    assert Health.Raised(rules) == [Health.IncidentOf(rules[0])];
    assert Health.AcceptedUpTo(Health.Ids(rules), |rules|);
    assert Health.AcceptedUpTo(Health.Ids([]), 0);
    firing := Shared(Some(HealthSnapshot(0, Health.Raised(rules))), Some(0));
    quiet := Shared(Some(HealthSnapshot(0, Health.Raised([]))), Some(0));
  }

  /** Such a run: one round with a rule of severity Healthy, then one without it. */
  lemma HealthyRuleUnbalances(c: NtfyConfig, name: string) returns (inputs: seq<Input>)
    requires c.enabled && c.notifyRecovery && c.notifyWarning && c.notifyCritical && Health.WellFormed(name)
    ensures AllFromRules(inputs) && AllAttentive(inputs)
    ensures Books(IDLE, inputs, Rule(name)) == Ledger(0, 1, 1, 0)
  {
    var firing, quiet := HealthyRule(name);
    var one, two := Input(Some(c), firing, false, 0, 0, 0, false), Input(Some(c), quiet, false, 0, 0, 0, false);
    ComesAndGoes(one, two, name);
    inputs := TwoRounds(one, two, Rule(name));
  }

  lemma ComesAndGoes(one: Input, two: Input, name: string)
    requires NotifiableIncidents(one.shared) == [Incident(Rule(name), Healthy, "")]
    requires NotifiableIncidents(two.shared) == []
    ensures AppearsHealthyAt(IDLE, one, Rule(name)) && Disappears(Round(IDLE, one), two, Rule(name))
  {
  }

  lemma TwoRounds(one: Input, two: Input, id: IncidentId) returns (inputs: seq<Input>)
    requires FromRules(one.shared) && Attentive(one) && AppearsHealthyAt(IDLE, one, id)
    requires FromRules(two.shared) && Attentive(two) && Disappears(Round(IDLE, one), two, id)
    ensures AllFromRules(inputs) && AllAttentive(inputs)
    ensures Books(IDLE, inputs, id) == Ledger(0, 1, 1, 0)
  {
    inputs := BothRounds(one, two);
    FirstTwoRounds(IDLE, one, two, id);
    NotifiableDistinct(one.shared);
    var w := Round(IDLE, one);
    assert w.previous == NotifiableIncidents(one.shared);
    HealthyAppearance(Ledger(0, 0, 0, 0), IDLE, one, id);
    AnnouncedEnd(Ledger(0, 1, 0, 0), w, two, id);
  }

  lemma BothRounds(one: Input, two: Input) returns (inputs: seq<Input>)
    requires FromRules(one.shared) && Attentive(one) && FromRules(two.shared) && Attentive(two)
    ensures inputs == [one, two] && AllFromRules(inputs) && AllAttentive(inputs)
  {
    inputs := [one, two];
  }

  lemma FirstTwoRounds(w: Worker, one: Input, two: Input, id: IncidentId)
    ensures Rounds(w, [one]) == Round(w, one)
    ensures Books(w, [one, two], id) == Booked(Booked(Ledger(0, 0, 0, 0), w, one, id), Round(w, one), two, id)
  {
    assert [one, two][..1] == [one] && [one][..0] == [];
    assert Rounds(w, [one]) == Round(Rounds(w, []), one);
    assert Books(w, [one], id) == Booked(Books(w, [], id), Rounds(w, []), one, id);
  }

  /** One round in the books, given its notices. */
  lemma BookedByNotices(l: Ledger, w: Worker, i: Input, id: IncidentId, starts: nat, ends: nat)
    requires StartsOf(Entries(w, i), id) == starts && EndsOf(Entries(w, i), id) == ends
    ensures Appears(w, i, id) && starts == 0 && ends == 0 ==>
      Booked(l, w, i, id) == l.(silentStarts := l.silentStarts + 1)
    ensures Disappears(w, i, id) && ends == 1 ==> Booked(l, w, i, id) == l.(ends := l.ends + 1)
  {
  }

  lemma HealthyIsSilent(w: Worker, i: Input, id: IncidentId)
    requires Health.Distinct(w.previous) && FromRules(i.shared) && AppearsHealthyAt(w, i, id)
    ensures StartsOf(Entries(w, i), id) == 0 && EndsOf(Entries(w, i), id) == 0
  {
    RoundNotices(w, i, id);
  }

  lemma HealthyAppearance(l: Ledger, w: Worker, i: Input, id: IncidentId)
    requires Health.Distinct(w.previous) && FromRules(i.shared) && AppearsHealthyAt(w, i, id)
    ensures Booked(l, w, i, id) == l.(silentStarts := l.silentStarts + 1)
  {
    HealthyIsSilent(w, i, id);
    BookedByNotices(l, w, i, id, 0, 0);
  }

  lemma EndIsAnnounced(w: Worker, i: Input, id: IncidentId)
    requires Health.Distinct(w.previous) && FromRules(i.shared) && Attentive(i) && Disappears(w, i, id)
    ensures EndsOf(Entries(w, i), id) == 1
  {
    RoundNotices(w, i, id);
  }

  lemma AnnouncedEnd(l: Ledger, w: Worker, i: Input, id: IncidentId)
    requires Health.Distinct(w.previous) && FromRules(i.shared) && Attentive(i) && Disappears(w, i, id)
    ensures Booked(l, w, i, id) == l.(ends := l.ends + 1)
  {
    EndIsAnnounced(w, i, id);
    BookedByNotices(l, w, i, id, StartsOf(Entries(w, i), id), 1);
  }

  // ---------------------------------------------------------------- the queue over whole runs

  /** Everything ever enqueued, and everything published. */
  function AllEnqueued(w: Worker, inputs: seq<Input>): seq<Notice>
  {
    if inputs == [] then []
    else
      var init := inputs[..|inputs| - 1];
      AllEnqueued(w, init) + Enqueued(Rounds(w, init), inputs[|inputs| - 1])
  }

  function Published(w: Worker, i: Input): seq<Notice> {
    if Publishes(w, i) then [PushAll(w.pending, Enqueued(w, i))[0]] else []
  }

  function AllPublished(w: Worker, inputs: seq<Input>): seq<Notice>
  {
    if inputs == [] then []
    else
      var init := inputs[..|inputs| - 1];
      AllPublished(w, init) + Published(Rounds(w, init), inputs[|inputs| - 1])
  }

  ghost predicate Suffix(part: seq<Notice>, whole: seq<Notice>) {
    |part| <= |whole| && part == whole[|whole| - |part|..]
  }

  /** The queue is the end of what was enqueued, and what was published came before it, in order. */
  ghost predicate InOrder(published: seq<Notice>, pending: seq<Notice>, enqueued: seq<Notice>)
  {
    && |pending| <= MAX_PENDING
    && Suffix(pending, enqueued)
    && Subsequence(published + pending, enqueued)
  }

  lemma PushKeepsOrder(published: seq<Notice>, pending: seq<Notice>, enqueued: seq<Notice>, x: Notice)
    requires InOrder(published, pending, enqueued)
    ensures InOrder(published, Push(pending, x), enqueued + [x])
  {
    var kept := if |pending| == MAX_PENDING then pending[1..] else pending;
    if |pending| == MAX_PENDING {
      SubsequenceWithoutOne(published + pending, enqueued, |published|);
      assert (published + pending)[..|published|] + (published + pending)[|published| + 1..] == published + kept;
    }
    SubsequenceOfLonger(published + kept, enqueued, x);
    assert published + kept + [x] == published + Push(pending, x);
  }

  lemma {:induction false} PushAllKeepsOrder(published: seq<Notice>, pending: seq<Notice>, enqueued: seq<Notice>,
                                             xs: seq<Notice>)
    requires InOrder(published, pending, enqueued)
    ensures InOrder(published, PushAll(pending, xs), enqueued + xs)
    decreases |xs|
  {
    if xs == [] {
      assert enqueued + xs == enqueued;
    } else {
      var init, x := xs[..|xs| - 1], xs[|xs| - 1];
      PushAllKeepsOrder(published, pending, enqueued, init);
      PushKeepsOrder(published, PushAll(pending, init), enqueued + init, x);
      assert enqueued + init + [x] == enqueued + xs;
    }
  }

  lemma PopKeepsOrder(published: seq<Notice>, pending: seq<Notice>, enqueued: seq<Notice>)
    requires InOrder(published, pending, enqueued) && pending != []
    ensures InOrder(published + [pending[0]], pending[1..], enqueued)
  {
    assert published + [pending[0]] + pending[1..] == published + pending;
  }

  /** In every run the queue holds at most eight notices, the last ones enqueued, and what was
      published is a part of what was enqueued, in the same order. */
  lemma {:induction false} QueueKeepsOrder(inputs: seq<Input>)
    ensures InOrder(AllPublished(IDLE, inputs), Rounds(IDLE, inputs).pending, AllEnqueued(IDLE, inputs))
    decreases |inputs|
  {
    if inputs == [] {
      assert AllPublished(IDLE, []) + IDLE.pending == [];
      assert Embeds([], AllEnqueued(IDLE, []), []);
    } else {
      var init, i := inputs[..|inputs| - 1], inputs[|inputs| - 1];
      QueueKeepsOrder(init);
      var w, published, enqueued := Rounds(IDLE, init), AllPublished(IDLE, init), AllEnqueued(IDLE, init);
      RoundKeepsOrder(w, i, published, enqueued);
    }
  }

  lemma RoundKeepsOrder(w: Worker, i: Input, published: seq<Notice>, enqueued: seq<Notice>)
    requires InOrder(published, w.pending, enqueued)
    ensures InOrder(published + Published(w, i), Round(w, i).pending, enqueued + Enqueued(w, i))
  {
    var more := Enqueued(w, i);
    PushAllKeepsOrder(published, w.pending, enqueued, more);
    if Publishes(w, i) {
      PopKeepsOrder(published, PushAll(w.pending, more), enqueued + more);
    } else {
      assert published + [] == published;
    }
  }

  /** Nothing is lost from the queue while it has room. */
  lemma NothingDropsWithRoom(w: Worker, i: Input)
    requires |w.pending| + |Enqueued(w, i)| <= MAX_PENDING
    ensures Published(w, i) + Round(w, i).pending == w.pending + Enqueued(w, i)
  {
    PushAllKeepsNewest(w.pending, Enqueued(w, i));
  }

  // ---------------------------------------------------------------- the repeats over whole runs

  /** One batch of repeats, between two readings of the clock. */
  datatype Batch = Batch(from: int, until: int)

  function Batches(w: Worker, inputs: seq<Input>): seq<Batch>
  {
    if inputs == [] then []
    else
      var init, i := inputs[..|inputs| - 1], inputs[|inputs| - 1];
      Batches(w, init)
      + if Enabled(i) && Repeats(Rounds(w, init), i) then [Batch(i.checkedAt, i.rearmedAt)] else []
  }

  predicate RepeatsEvery(i: Input, seconds: nat)
    requires Enabled(i)
  {
    i.config.value.repeatCriticalSeconds.Some? ==> i.config.value.repeatCriticalSeconds.value == seconds
  }

  /** The clock does not run backwards, and the interval is this one wherever there is one. */
  ghost predicate Steady(inputs: seq<Input>, seconds: nat)
  {
    && (forall k :: 0 <= k < |inputs| ==> inputs[k].askedAt <= inputs[k].checkedAt <= inputs[k].rearmedAt)
    && (forall j, k :: 0 <= j < k < |inputs| ==> inputs[j].rearmedAt <= inputs[k].askedAt)
    && (forall k :: 0 <= k < |inputs| && Enabled(inputs[k]) ==> RepeatsEvery(inputs[k], seconds))
  }

  /** The armed timer lies the interval behind the last batch. */
  ghost predicate Armed(next: Option<int>, batches: seq<Batch>, seconds: nat, clock: int)
  {
    && (batches != [] && next.Some? ==> next.value >= batches[|batches| - 1].until + 1_000 * seconds)
    && (batches != [] ==> batches[|batches| - 1].until <= clock)
    && (forall k :: 0 < k < |batches| ==> batches[k].from >= batches[k - 1].until + 1_000 * seconds)
  }

  lemma TimerStep(w: Worker, i: Input, seconds: nat)
    requires Enabled(i) && RepeatsEvery(i, seconds)
    ensures var after := NextRepeat(w, i);
      && (Repeats(w, i) ==>
            && after == Some(i.rearmedAt + 1_000 * seconds)
            && i.checkedAt >= if w.nextRepeat.Some? then w.nextRepeat.value else i.askedAt + 1_000 * seconds)
      && (!Repeats(w, i) && after.Some? ==> after == w.nextRepeat || after.value == i.askedAt + 1_000 * seconds)
  {
  }

  lemma RoundTimer(w: Worker, i: Input)
    ensures Round(w, i).nextRepeat == if Enabled(i) then NextRepeat(w, i) else w.nextRepeat
  {
  }

  lemma FiringKeepsArmed(next: Option<int>, batches: seq<Batch>, seconds: nat, clock: int, asked: int, b: Batch)
    requires Armed(next, batches, seconds, clock) && (batches != [] ==> clock <= asked)
    requires b.from >= (if next.Some? then next.value else asked + 1_000 * seconds)
    ensures Armed(Some(b.until + 1_000 * seconds), batches + [b], seconds, b.until)
  {
  }

  lemma RoundKeepsArmed(w: Worker, i: Input, batches: seq<Batch>, seconds: nat, clock: int)
    requires Armed(w.nextRepeat, batches, seconds, clock) && (batches != [] ==> clock <= i.askedAt)
    requires i.askedAt <= i.checkedAt <= i.rearmedAt
    requires Enabled(i) ==> RepeatsEvery(i, seconds)
    ensures Armed(Round(w, i).nextRepeat,
                  batches + if Enabled(i) && Repeats(w, i) then [Batch(i.checkedAt, i.rearmedAt)] else [],
                  seconds, i.rearmedAt)
  {
    RoundTimer(w, i);
    if Enabled(i) {
      TimerStep(w, i, seconds);
    }
    if Enabled(i) && Repeats(w, i) {
      FiringKeepsArmed(w.nextRepeat, batches, seconds, clock, i.askedAt, Batch(i.checkedAt, i.rearmedAt));
    } else {
      assert batches + [] == batches;
    }
  }

  function Clock(inputs: seq<Input>): int {
    if inputs == [] then 0 else inputs[|inputs| - 1].rearmedAt
  }

  lemma {:induction false} RunKeepsArmed(inputs: seq<Input>, seconds: nat)
    requires Steady(inputs, seconds)
    ensures Armed(Rounds(IDLE, inputs).nextRepeat, Batches(IDLE, inputs), seconds, Clock(inputs))
    decreases |inputs|
  {
    if inputs != [] {
      var init, i := inputs[..|inputs| - 1], inputs[|inputs| - 1];
      RunKeepsArmed(init, seconds);
      var w, batches := Rounds(IDLE, init), Batches(IDLE, init);
      assert init != [] ==> Clock(init) <= i.askedAt;
      RoundKeepsArmed(w, i, batches, seconds, Clock(init));
    }
  }

  lemma {:induction false} BatchesHaveLength(inputs: seq<Input>, seconds: nat, k: nat)
    requires Steady(inputs, seconds) && k < |Batches(IDLE, inputs)|
    ensures Batches(IDLE, inputs)[k].from <= Batches(IDLE, inputs)[k].until
    decreases |inputs|
  {
    var init := inputs[..|inputs| - 1];
    if k < |Batches(IDLE, init)| {
      BatchesHaveLength(init, seconds, k);
    }
  }

  lemma {:induction false} DistancesAddUp(batches: seq<Batch>, distance: nat, j: nat, k: nat)
    requires j < k < |batches|
    requires forall n :: 0 <= n < |batches| ==> batches[n].from <= batches[n].until
    requires forall n :: 0 < n < |batches| ==> batches[n].from >= batches[n - 1].until + distance
    ensures batches[k].from >= batches[j].until + distance
    decreases k
  {
    if j + 1 < k {
      DistancesAddUp(batches, distance, j, k - 1);
    }
  }

  /** For a constant interval, two batches of STILL ACTIVE notices lie at least the interval
      apart in every run, through recoveries and rounds with ntfy off. */
  lemma RepeatsKeepTheirDistance(inputs: seq<Input>, seconds: nat, j: nat, k: nat)
    requires Steady(inputs, seconds) && j < k < |Batches(IDLE, inputs)|
    ensures Batches(IDLE, inputs)[k].from >= Batches(IDLE, inputs)[j].until + 1_000 * seconds
  {
    RunKeepsArmed(inputs, seconds);
    var batches := Batches(IDLE, inputs);
    forall n | 0 <= n < |batches| ensures batches[n].from <= batches[n].until {
      BatchesHaveLength(inputs, seconds, n);
    }
    DistancesAddUp(batches, 1_000 * seconds, j, k);
  }
}
