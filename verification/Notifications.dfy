/** The device's notification worker: which incidents it announces, repeats and recalls, and
    the bounded queue of notices it publishes from. */
module Notifications {
  import opened Common
  import opened Protocol

  const MAX_PENDING := 8
  const STALE_AFTER := 15_000

  /** The last snapshot and its age in milliseconds, as the worker reads them. */
  datatype Shared = Shared(snapshot: Option<HealthSnapshot>, age: Option<int>)

  const OFFLINE := Incident(HostOffline, Critical, "HOST CONNECTION LOST")

  function ActiveIncidents(s: Shared): seq<Incident> {
    (if s.age.None? || s.age.value >= STALE_AFTER then [OFFLINE] else [])
    + if s.snapshot.Some? then s.snapshot.value.incidents else []
  }

  function Without(incidents: seq<Incident>, id: IncidentId): seq<Incident>
  {
    if incidents == [] then []
    else Without(incidents[..|incidents| - 1], id)
         + if incidents[|incidents| - 1].id == id then [] else [incidents[|incidents| - 1]]
  }

  /** Before the first snapshot the host does not count as lost. */
  function NotifiableIncidents(s: Shared): seq<Incident> {
    if s.snapshot.Some? then ActiveIncidents(s) else Without(ActiveIncidents(s), HostOffline)
  }

  datatype Notice = Notice(message: string, priority: NotificationPriority, recovery: bool)

  /** What a notice is about. */
  datatype Entry = Test | Began(incident: Incident) | Again(incident: Incident) | Over(incident: Incident)

  function Render(c: NtfyConfig, e: Entry): Notice {
    match e
    case Test => Notice("Servatory test notification", Default, false)
    case Began(incident) =>
      Notice(incident.message, if incident.level == Critical then c.criticalPriority else c.warningPriority, false)
    case Again(incident) => Notice("STILL ACTIVE: " + incident.message, c.criticalPriority, false)
    case Over(incident) => Notice("RECOVERED: " + incident.message, c.recoveryPriority, true)
  }

  function Rendered(c: NtfyConfig, entries: seq<Entry>): seq<Notice> {
    seq(|entries|, k requires 0 <= k < |entries| => Render(c, entries[k]))
  }

  function Lookup(incidents: seq<Incident>, id: IncidentId): (r: Option<Incident>)
    ensures r.Some? ==> r.value in incidents && r.value.id == id
    ensures r.None? ==> forall k :: 0 <= k < |incidents| ==> incidents[k].id != id
  {
    if incidents == [] then None
    else if incidents[0].id == id then Some(incidents[0])
    else Lookup(incidents[1..], id)
  }

  predicate Present(incidents: seq<Incident>, id: IncidentId) {
    Lookup(incidents, id).Some?
  }

  predicate Selected(c: NtfyConfig, level: HealthLevel) {
    (level == Warning && c.notifyWarning) || (level == Critical && c.notifyCritical)
  }

  /** New, or graver than it was. */
  predicate Newsworthy(previous: seq<Incident>, incident: Incident) {
    var before := Lookup(previous, incident.id);
    before.None? || before.value.level.Priority() < incident.level.Priority()
  }

  predicate Announced(c: NtfyConfig, previous: seq<Incident>, incident: Incident) {
    Newsworthy(previous, incident) && Selected(c, incident.level)
  }

  function Started(c: NtfyConfig, previous: seq<Incident>, current: seq<Incident>): seq<Entry>
  {
    if current == [] then []
    else
      var last := current[|current| - 1];
      Started(c, previous, current[..|current| - 1]) + if Announced(c, previous, last) then [Began(last)] else []
  }

  function StillActive(current: seq<Incident>): seq<Entry>
  {
    if current == [] then []
    else
      var last := current[|current| - 1];
      StillActive(current[..|current| - 1]) + if last.level == Critical then [Again(last)] else []
  }

  function Ended(previous: seq<Incident>, current: seq<Incident>): seq<Entry>
  {
    if previous == [] then []
    else
      var last := previous[|previous| - 1];
      Ended(previous[..|previous| - 1], current) + if Present(current, last.id) then [] else [Over(last)]
  }

  // ---------------------------------------------------------------- the queue

  function Push(queue: seq<Notice>, x: Notice): seq<Notice> {
    (if |queue| == MAX_PENDING then queue[1..] else queue) + [x]
  }

  function PushAll(queue: seq<Notice>, xs: seq<Notice>): seq<Notice>
  {
    if xs == [] then queue else Push(PushAll(queue, xs[..|xs| - 1]), xs[|xs| - 1])
  }

  lemma PushOneMore(queue: seq<Notice>, c: NtfyConfig, entries: seq<Entry>, e: Entry)
    ensures PushAll(queue, Rendered(c, entries + [e])) == Push(PushAll(queue, Rendered(c, entries)), Render(c, e))
  {
    var all := Rendered(c, entries + [e]);
    assert all[..|all| - 1] == Rendered(c, entries);
  }

  lemma {:induction false} PushAllConcat(queue: seq<Notice>, xs: seq<Notice>, ys: seq<Notice>)
    ensures PushAll(queue, xs + ys) == PushAll(PushAll(queue, xs), ys)
  {
    if ys == [] {
      assert xs + ys == xs;
    } else {
      assert (xs + ys)[..|xs + ys| - 1] == xs + ys[..|ys| - 1];
      PushAllConcat(queue, xs, ys[..|ys| - 1]);
    }
  }

  function LastOf(xs: seq<Notice>, n: nat): seq<Notice> {
    if |xs| <= n then xs else xs[|xs| - n..]
  }

  /** The queue keeps the newest eight. */
  lemma {:induction false} PushAllKeepsNewest(queue: seq<Notice>, xs: seq<Notice>)
    requires |queue| <= MAX_PENDING
    ensures PushAll(queue, xs) == LastOf(queue + xs, MAX_PENDING)
    decreases |xs|
  {
    if xs == [] {
      assert queue + xs == queue;
    } else {
      var init, x := xs[..|xs| - 1], xs[|xs| - 1];
      PushAllKeepsNewest(queue, init);
      assert queue + xs == (queue + init) + [x];
    }
  }

  // ---------------------------------------------------------------- one round

  /** What the worker finds in one round; three clock readings, in milliseconds. */
  datatype Input = Input(
    config: Option<NtfyConfig>, shared: Shared, test: bool,
    askedAt: int, checkedAt: int, rearmedAt: int, publishes: bool)

  datatype Worker = Worker(previous: seq<Incident>, pending: seq<Notice>, nextRepeat: Option<int>)

  predicate Enabled(i: Input) {
    i.config.Some? && i.config.value.enabled
  }

  function Due(w: Worker, seconds: nat, i: Input): int {
    if w.nextRepeat.Some? then w.nextRepeat.value else i.askedAt + 1_000 * seconds
  }

  /** The critical incidents are announced once more in this round. */
  predicate Repeats(w: Worker, i: Input)
    requires Enabled(i)
  {
    var seconds := i.config.value.repeatCriticalSeconds;
    seconds.Some? && StillActive(NotifiableIncidents(i.shared)) != [] && i.checkedAt >= Due(w, seconds.value, i)
  }

  function NextRepeat(w: Worker, i: Input): Option<int>
    requires Enabled(i)
  {
    var seconds := i.config.value.repeatCriticalSeconds;
    if seconds.None? || StillActive(NotifiableIncidents(i.shared)) == [] then None
    else if i.checkedAt >= Due(w, seconds.value, i) then Some(i.rearmedAt + 1_000 * seconds.value)
    else Some(Due(w, seconds.value, i))
  }

  /** Everything this round enqueues. */
  function Entries(w: Worker, i: Input): seq<Entry>
  {
    if !Enabled(i) then []
    else
      var c, current := i.config.value, NotifiableIncidents(i.shared);
      (if i.test then [Test] else [])
      + Started(c, w.previous, current)
      + (if Repeats(w, i) then StillActive(current) else [])
      + (if c.notifyRecovery then Ended(w.previous, current) else [])
  }

  lemma EntriesSplit(w: Worker, i: Input, tested: seq<Entry>, started: seq<Entry>, repeated: seq<Entry>,
                     recalled: seq<Entry>)
    requires Enabled(i)
    requires tested == if i.test then [Test] else []
    requires started == Started(i.config.value, w.previous, NotifiableIncidents(i.shared))
    requires repeated == if Repeats(w, i) then StillActive(NotifiableIncidents(i.shared)) else []
    requires recalled == if i.config.value.notifyRecovery then Ended(w.previous, NotifiableIncidents(i.shared)) else []
    ensures Entries(w, i) == tested + started + repeated + recalled
  {
  }

  function Enqueued(w: Worker, i: Input): seq<Notice> {
    if Enabled(i) then Rendered(i.config.value, Entries(w, i)) else []
  }

  predicate Publishes(w: Worker, i: Input) {
    Enabled(i) && i.publishes && PushAll(w.pending, Enqueued(w, i)) != []
  }

  function Round(w: Worker, i: Input): Worker
  {
    var queue := PushAll(w.pending, Enqueued(w, i));
    Worker(NotifiableIncidents(i.shared), if Publishes(w, i) then queue[1..] else queue,
           if Enabled(i) then NextRepeat(w, i) else w.nextRepeat)
  }

  class NotificationWorker {
    var previous: seq<Incident>
    var pending: seq<Notice>
    var nextCriticalRepeat: Option<int>

    ghost function Abs(): Worker
      reads this
    {
      Worker(previous, pending, nextCriticalRepeat)
    }

    constructor ()
      ensures Abs() == Worker([], [], None)
    {
      previous, pending, nextCriticalRepeat := [], [], None;
    }

    method PushPending(x: Notice)
      modifies this`pending
      ensures pending == Push(old(pending), x)
    {
      if |pending| == MAX_PENDING {
        pending := pending[1..];
      }
      pending := pending + [x];
    }

    method Announce(c: NtfyConfig, current: seq<Incident>)
      modifies this`pending
      ensures pending == PushAll(old(pending), Rendered(c, Started(c, previous, current)))
    {
      for k := 0 to |current|
        invariant pending == PushAll(old(pending), Rendered(c, Started(c, previous, current[..k])))
      {
        assert current[..k + 1][..k] == current[..k];
        var incident := current[k];
        if Announced(c, previous, incident) {
          PushOneMore(old(pending), c, Started(c, previous, current[..k]), Began(incident));
          var priority := if incident.level == Critical then c.criticalPriority else c.warningPriority;
          PushPending(Notice(incident.message, priority, false));
        } else {
          assert Started(c, previous, current[..k]) + [] == Started(c, previous, current[..k]);
        }
      }
      assert current[..|current|] == current;
    }

    method RepeatCriticals(c: NtfyConfig, current: seq<Incident>)
      modifies this`pending
      ensures pending == PushAll(old(pending), Rendered(c, StillActive(current)))
    {
      for k := 0 to |current|
        invariant pending == PushAll(old(pending), Rendered(c, StillActive(current[..k])))
      {
        assert current[..k + 1][..k] == current[..k];
        if current[k].level == Critical {
          PushOneMore(old(pending), c, StillActive(current[..k]), Again(current[k]));
          PushPending(Notice("STILL ACTIVE: " + current[k].message, c.criticalPriority, false));
        } else {
          assert StillActive(current[..k]) + [] == StillActive(current[..k]);
        }
      }
      assert current[..|current|] == current;
    }

    method Recall(c: NtfyConfig, current: seq<Incident>)
      modifies this`pending
      ensures pending == PushAll(old(pending), Rendered(c, Ended(previous, current)))
    {
      for k := 0 to |previous|
        invariant pending == PushAll(old(pending), Rendered(c, Ended(previous[..k], current)))
      {
        assert previous[..k + 1][..k] == previous[..k];
        if !Present(current, previous[k].id) {
          PushOneMore(old(pending), c, Ended(previous[..k], current), Over(previous[k]));
          PushPending(Notice("RECOVERED: " + previous[k].message, c.recoveryPriority, true));
        } else {
          assert Ended(previous[..k], current) + [] == Ended(previous[..k], current);
        }
      }
      assert previous[..|previous|] == previous;
    }

    /** The repeat timer; says whether it has run out. */
    method AskTimer(i: Input, current: seq<Incident>) returns (repeats: bool)
      requires Enabled(i) && current == NotifiableIncidents(i.shared)
      modifies this`nextCriticalRepeat
      ensures repeats <==> Repeats(old(Abs()), i)
      ensures nextCriticalRepeat == NextRepeat(old(Abs()), i)
    {
      repeats := false;
      var seconds := i.config.value.repeatCriticalSeconds;
      if seconds.Some? && StillActive(current) != [] {
        if nextCriticalRepeat.None? {
          nextCriticalRepeat := Some(i.askedAt + 1_000 * seconds.value);
        }
        if i.checkedAt >= nextCriticalRepeat.value {
          repeats := true;
          nextCriticalRepeat := Some(i.rearmedAt + 1_000 * seconds.value);
        }
      } else {
        nextCriticalRepeat := None;
      }
    }

    method EnqueueAll(i: Input, current: seq<Incident>)
      requires Enabled(i) && current == NotifiableIncidents(i.shared)
      modifies this`pending, this`nextCriticalRepeat
      ensures pending == PushAll(old(pending), Enqueued(old(Abs()), i))
      ensures nextCriticalRepeat == NextRepeat(old(Abs()), i)
    {
      var c := i.config.value;
      ghost var w, queue := Abs(), pending;
      ghost var tested: seq<Entry> := if i.test then [Test] else [];
      if i.test {
        PushOneMore(queue, c, [], Test);
        PushPending(Notice("Servatory test notification", Default, false));
      }
      PushedOn(queue, c, tested, Started(c, previous, current));
      Announce(c, current);
      var repeats := AskTimer(i, current);
      ghost var announced := tested + Started(c, previous, current);
      ghost var repeated := if repeats then StillActive(current) else [];
      PushedOn(queue, c, announced, repeated);
      if repeats {
        RepeatCriticals(c, current);
      }
      ghost var recalled := if c.notifyRecovery then Ended(previous, current) else [];
      PushedOn(queue, c, announced + repeated, recalled);
      if c.notifyRecovery {
        Recall(c, current);
      }
      EntriesSplit(w, i, tested, Started(c, w.previous, current), repeated, recalled);
    }

    /** One round of the worker; the notice that was published, if one was. */
    method RunRound(i: Input) returns (published: Option<Notice>)
      modifies this
      ensures Abs() == Round(old(Abs()), i)
      ensures published == if Publishes(old(Abs()), i)
                           then Some(PushAll(old(pending), Enqueued(old(Abs()), i))[0]) else None
    {
      published := None;
      var current := NotifiableIncidents(i.shared);
      if Enabled(i) {
        EnqueueAll(i, current);
        if i.publishes && pending != [] {
          published := Some(pending[0]);
          pending := pending[1..];
        }
      }
      previous := current;
    }
  }

  lemma PushedOn(queue: seq<Notice>, c: NtfyConfig, a: seq<Entry>, b: seq<Entry>)
    ensures PushAll(queue, Rendered(c, a + b)) == PushAll(PushAll(queue, Rendered(c, a)), Rendered(c, b))
  {
    assert Rendered(c, a + b) == Rendered(c, a) + Rendered(c, b);
    PushAllConcat(queue, Rendered(c, a), Rendered(c, b));
  }
}
