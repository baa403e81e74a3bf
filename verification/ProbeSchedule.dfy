/** When the connectivity probe starts its probes, told from the link's history alone. */
module ProbeSchedule {
  import opened Common
  import opened ConnectivityProbe

  /** Whether the last snapshot saw the link up; before the first, nothing is known. */
  function LastLink(events: seq<Event>): Option<bool>
  {
    if events == [] then None
    else
      match events[|events| - 1]
      case TakeSnapshot(_, linkUp) => Some(linkUp)
      case Finish(_, _, _) => LastLink(events[..|events| - 1])
  }

  /** When the next probe may start, behind a look at the link and before it starts one: a link that
      has come up must settle first, and one that has gone down is looked at right away. */
  function DueAt(c: Settings, before: Option<bool>, due: int, now: int, linkUp: bool): int {
    if before == Some(linkUp) then due
    else if linkUp then now + c.settle
    else now
  }

  /** When the next probe is due behind one more event: a probe that starts puts the next one off by
      the interval, and the pardoned first failure behind a link-up by the retry delay. */
  function DueBehind(c: Settings, link: Option<bool>, due: int, w: World, e: Event): int
  {
    match e
    case TakeSnapshot(now, linkUp) =>
      var at := DueAt(c, link, due, now, linkUp);
      if w.underWay == [] && now >= at then now + c.interval else at
    case Finish(i, reachable, now) =>
      if i < |w.underWay| && w.underWay[i].epoch == w.changes && !reachable && link == Some(true) && w.results == []
      then now + c.retry
      else due
  }

  function NextDue(c: Settings, start: int, events: seq<Event>): int
    decreases |events|
  {
    if events == [] then start
    else
      var init := events[..|events| - 1];
      DueBehind(c, LastLink(init), NextDue(c, start, init), Run(c, Start(start), init), events[|events| - 1])
  }

  lemma LinkOfEvent(c: Settings, w: World, e: Event)
    ensures Happen(c, w, e).probe.lastLinkUp == if e.TakeSnapshot? then Some(e.linkUp) else w.probe.lastLinkUp
  {
  }

  lemma {:induction false} LinkIsLast(c: Settings, start: int, events: seq<Event>)
    ensures Run(c, Start(start), events).probe.lastLinkUp == LastLink(events)
    decreases |events|
  {
    if events != [] {
      LinkIsLast(c, start, events[..|events| - 1]);
      LinkOfEvent(c, Run(c, Start(start), events[..|events| - 1]), events[|events| - 1]);
    }
  }

  lemma SnapshotStarts(c: Settings, w: World, now: int, linkUp: bool)
    requires Exclusive(w)
    ensures var due := DueAt(c, w.probe.lastLinkUp, w.probe.nextProbe, now, linkUp);
      var v, starts := Snapshotted(c, w, now, linkUp), w.underWay == [] && now >= due;
      && v.probe.nextProbe == (if starts then now + c.interval else due)
      && |v.underWay| == |w.underWay| + (if starts then 1 else 0)
      && (starts ==> v.underWay == [Launch(v.probe.generation, v.changes, now)])
  {
  }

  lemma FinishPutsOff(c: Settings, w: World, reachable: bool, now: int)
    requires Exclusive(w) && Truthful(c, w) && w.underWay != [] && w.changes - w.underWay[0].epoch < GENERATIONS
    ensures Finished(c, w, 0, reachable, now).probe.nextProbe
         == if w.underWay[0].epoch == w.changes && !reachable && LinkUp(w) && w.results == [] then now + c.retry
            else w.probe.nextProbe
  {
    StaleResults(c, w, reachable, now);
  }

  lemma OneEventMore(c: Settings, w: World, e: Event)
    requires Exclusive(w) && Truthful(c, w) && Recent(w, e)
    ensures Happen(c, w, e).probe.nextProbe == DueBehind(c, w.probe.lastLinkUp, w.probe.nextProbe, w, e)
  {
    match e
    case TakeSnapshot(now, linkUp) => SnapshotStarts(c, w, now, linkUp);
    case Finish(i, reachable, now) =>
      if i < |w.underWay| {
        FinishPutsOff(c, w, reachable, now);
      }
  }

  /** Over every run, the schedule is that of the history. */
  lemma {:induction false} ScheduleIsKept(c: Settings, start: int, events: seq<Event>)
    requires c.failures <= MAX_COUNTER && AllRecent(c, Start(start), events)
    ensures Run(c, Start(start), events).probe.nextProbe == NextDue(c, start, events)
    decreases |events|
  {
    if events != [] {
      var init := events[..|events| - 1];
      RecentBefore(c, start, events);
      ScheduleIsKept(c, start, init);
      StateIsTruthful(c, start, init);
      AtMostOneProbe(c, start, init);
      LinkIsLast(c, start, init);
      OneEventMore(c, Run(c, Start(start), init), events[|events| - 1]);
    }
  }

  lemma RecentBefore(c: Settings, start: int, events: seq<Event>)
    requires events != [] && AllRecent(c, Start(start), events)
    ensures AllRecent(c, Start(start), events[..|events| - 1])
    ensures Recent(Run(c, Start(start), events[..|events| - 1]), events[|events| - 1])
  {
    var init := events[..|events| - 1];
    assert forall k :: 0 <= k < |init| ==> init[..k] == events[..k];
  }

  /** In every run a snapshot starts a probe exactly if none is under way and the next one is due; it
      is a probe of the current link. */
  lemma ProbesStartWhenDue(c: Settings, start: int, events: seq<Event>, now: int, linkUp: bool)
    requires c.failures <= MAX_COUNTER && AllRecent(c, Start(start), events)
    ensures var w, v := Run(c, Start(start), events), Run(c, Start(start), events + [TakeSnapshot(now, linkUp)]);
      var due := DueAt(c, LastLink(events), NextDue(c, start, events), now, linkUp);
      if w.underWay == [] && now >= due then
        |v.underWay| == 1 && v.underWay[0].at == now && v.underWay[0].epoch == v.changes
      else v.underWay == w.underWay
  {
    var e := TakeSnapshot(now, linkUp);
    assert (events + [e])[..|events|] == events;
    ScheduleIsKept(c, start, events);
    LinkIsLast(c, start, events);
    AtMostOneProbe(c, start, events);
    SnapshotStarts(c, Run(c, Start(start), events), now, linkUp);
    var w := Run(c, Start(start), events);
    assert w.underWay + [] == w.underWay;
  }
}
