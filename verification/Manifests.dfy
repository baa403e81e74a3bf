/** The manifests the daemon writes and caches: what the device has been shown before each
    snapshot, over whole runs of the daemon's loop. */
module Manifests {
  import opened Common
  import opened Protocol
  import opened Link
  import opened Pagination
  import opened Daemon

  /** A snapshot with the manifests last written to the device before it. */
  datatype Shown = Shown(guests: nat, display: Option<DisplayConfig>, network: Option<NetworkConfig>)

  /** The manifests written since the handshake was established, and every snapshot. */
  datatype History = History(display: Option<DisplayConfig>, network: Option<NetworkConfig>, shown: seq<Shown>)

  function RecordedOne(h: History, x: HostMessage): History {
    match x
    case Display(d) => h.(display := Some(d))
    case Network(n) => h.(network := Some(n))
    case Snapshot(s) => h.(shown := h.shown + [Shown(s.guests, h.display, h.network)])
    case _ => h
  }

  function Recorded(h: History, written: seq<HostMessage>): History
  {
    if written == [] then h
    else RecordedOne(Recorded(h, written[..|written| - 1]), written[|written| - 1])
  }

  /** A new or missing handshake starts from nothing. */
  function Kept(h: History, s: Loop): History {
    if s.session.established && !s.manifestPending then h else h.(display := None, network := None)
  }

  /** The cached manifests are those of the page count they are filed under. */
  ghost predicate CacheCurrent(config: Config, s: Loop) {
    && Some(s.display) == DisplayForPages(config, s.configuredPages)
    && Some(s.network) == NetworkForPages(config, s.configuredPages)
  }

  /** The cached LCD manifest is one of the configuration's. */
  ghost predicate Cached(config: Config, s: Loop) {
    exists pages: nat :: DisplayForPages(config, pages) == Some(s.display)
  }

  ghost predicate Matches(config: Config, shown: Shown) {
    && shown.display.Some? && shown.display == DisplayFor(config, shown.guests)
    && shown.network.Some? && shown.network == NetworkFor(config, shown.guests)
  }

  /** Until a manifest is due, the device has been shown the cached ones. */
  ghost predicate InStep(s: Loop, h: History) {
    s.session.open && s.session.established && !s.manifestPending ==>
      h.display == Some(s.display) && h.network == Some(s.network)
  }

  // ---------------------------------------------------------------- what a turn can be seen to do beforehand

  /** The turn gets as far as its snapshot. */
  predicate Reaches(s: Loop, i: Input) {
    && s.session.open && s.session.established && (s.manifestPending ==> i.displayOk && i.networkOk)
    && i.now >= s.nextUpdate && i.latest.Some?
  }

  /** The number of guest pages has changed, and there are manifests for it. */
  predicate Recompiles(config: Config, s: Loop, guests: nat) {
    GuestPageCount(guests) != s.configuredPages && DisplayFor(config, guests).Some? && NetworkFor(config, guests).Some?
  }

  /** The new LCD manifest goes out and the new network manifest behind it does not. */
  predicate HalfUpdate(config: Config, s: Loop, i: Input, guests: nat) {
    && Recompiles(config, s, guests)
    && DisplayFor(config, guests).value != s.display && i.newDisplayOk
    && NetworkFor(config, guests).value != s.network && !i.newNetworkOk
  }

  /** Every manifest that differs goes out. */
  predicate FullUpdate(config: Config, s: Loop, i: Input, guests: nat) {
    && Recompiles(config, s, guests)
    && (DisplayFor(config, guests).value != s.display ==> i.newDisplayOk)
    && (NetworkFor(config, guests).value != s.network ==> i.newNetworkOk)
  }

  predicate SamePages(s: Loop, guests: nat) {
    GuestPageCount(guests) == s.configuredPages
  }

  predicate SendsSnapshot(config: Config, s: Loop, i: Input) {
    && Reaches(s, i) && i.snapshotOk
    && (SamePages(s, i.latest.value.guests) || FullUpdate(config, s, i, i.latest.value.guests))
  }

  /** Whether the cache is current behind the turn, told from before it. */
  ghost predicate StaysCurrent(config: Config, s: Loop, i: Input) {
    if Reaches(s, i) then
      var guests := i.latest.value.guests;
      FullUpdate(config, s, i, guests) || (CacheCurrent(config, s) && !HalfUpdate(config, s, i, guests))
    else CacheCurrent(config, s)
  }

  // ---------------------------------------------------------------- the cache

  lemma {:induction false} UnpaginatedIsConstant(config: Config, ids: seq<string>, few: nat, many: nat)
    requires !Paginates(config, ids)
    ensures ViewsPages(config, ids, few) == ViewsPages(config, ids, many)
    decreases |ids|
  {
    if ids != [] {
      var init := ids[..|ids| - 1];
      assert forall k :: 0 <= k < |init| ==> init[k] == ids[k];
      UnpaginatedIsConstant(config, init, few, many);
    }
  }

  /** If any two page counts have different LCD manifests, all have. */
  lemma DisplaysAllDiffer(config: Config, a: nat, b: nat, p: nat, q: nat)
    requires DisplayForPages(config, a) != DisplayForPages(config, b)
    requires DisplayForPages(config, a).Some? && DisplayForPages(config, b).Some? && p != q
    requires DisplayForPages(config, p).Some?
    ensures DisplayForPages(config, p) != DisplayForPages(config, q)
  {
    if !Paginates(config, config.lcdViews) {
      UnpaginatedIsConstant(config, config.lcdViews, a, b);
    }
    if DisplayForPages(config, q).Some? {
      MorePagesForMoreGuests(config, config.lcdViews, Min(p, q), Max(p, q));
    }
  }

  /** Exactly what an update does to the cache. It becomes current by a full update, stays
      current unless half of one goes out, and half of one never makes it current. */
  lemma UpdateKeepsCache(config: Config, s: Loop, i: Input, guests: nat)
    requires Cached(config, s)
    ensures var u := UpdatePhase(config, s, i, guests);
      && Cached(config, u.loop)
      && (CacheCurrent(config, u.loop)
          <==> FullUpdate(config, s, i, guests) || (CacheCurrent(config, s) && !HalfUpdate(config, s, i, guests)))
  {
    var u := UpdatePhase(config, s, i, guests);
    var cached: nat :| DisplayForPages(config, cached) == Some(s.display);
    if HalfUpdate(config, s, i, guests) {
      assert DisplayForPages(config, GuestPageCount(guests)) == Some(u.loop.display);
      if DisplayForPages(config, s.configuredPages).Some? {
        DisplaysAllDiffer(config, GuestPageCount(guests), cached, s.configuredPages, GuestPageCount(guests));
      }
    } else if FullUpdate(config, s, i, guests) {
      assert DisplayForPages(config, GuestPageCount(guests)) == Some(u.loop.display);
    } else {
      assert u.loop == s;
    }
  }

  lemma UpdateEnds(config: Config, s: Loop, i: Input, guests: nat)
    ensures var u := UpdatePhase(config, s, i, guests);
      && (u.ending == Fine <==> SamePages(s, guests) || FullUpdate(config, s, i, guests))
      && (FullUpdate(config, s, i, guests) ==>
            && Some(u.loop.display) == DisplayFor(config, guests) && Some(u.loop.network) == NetworkFor(config, guests))
      && (SamePages(s, guests) ==> u == Phase(s, [], Fine))
      && u.loop.session == s.session
  {
  }

  // ---------------------------------------------------------------- what the writes record

  lemma RecordedShort(h: History, a: HostMessage, b: HostMessage)
    ensures Recorded(h, []) == h
    ensures Recorded(h, [a]) == RecordedOne(h, a)
    ensures Recorded(h, [a, b]) == RecordedOne(RecordedOne(h, a), b)
  {
    assert [a, b][..1] == [a] && [a][..0] == [];
  }

  lemma RecordedLast(h: History, written: seq<HostMessage>, x: HostMessage)
    ensures Recorded(h, written + [x]) == RecordedOne(Recorded(h, written), x)
  {
    assert (written + [x])[..|written|] == written;
  }

  lemma ReplacedRecords(s: Loop, i: Input, pages: nat, display: DisplayConfig, network: NetworkConfig, h: History)
    ensures var u := Replaced(s, i, pages, display, network); var r := Recorded(h, u.written);
      && r.shown == h.shown
      && r.display == (if u.loop.display == s.display then h.display else Some(u.loop.display))
      && r.network == (if u.loop.network == s.network then h.network else Some(u.loop.network))
  {
    var u := Replaced(s, i, pages, display, network);
    RecordedShort(h, Display(display), Network(network));
    RecordedShort(h, Network(network), Network(network));
    assert u.written == [] || u.written == [Display(display)] || u.written == [Network(network)]
        || u.written == [Display(display), Network(network)];
  }

  lemma UpdateRecords(config: Config, s: Loop, i: Input, guests: nat, h: History)
    ensures var u := UpdatePhase(config, s, i, guests); var r := Recorded(h, u.written);
      && r.shown == h.shown
      && r.display == (if u.loop.display == s.display then h.display else Some(u.loop.display))
      && r.network == (if u.loop.network == s.network then h.network else Some(u.loop.network))
  {
    var display, network := DisplayFor(config, guests), NetworkFor(config, guests);
    if display.Some? && network.Some? {
      ReplacedRecords(s, i, GuestPageCount(guests), display.value, network.value, h);
    }
    RecordedShort(h, Display(s.display), Display(s.display));
  }

  lemma {:induction false} RecordedConcat(h: History, a: seq<HostMessage>, b: seq<HostMessage>)
    ensures Recorded(h, a + b) == Recorded(Recorded(h, a), b)
    decreases |b|
  {
    if b == [] {
      assert a + b == a;
    } else {
      assert (a + b)[..|a + b| - 1] == a + b[..|b| - 1];
      RecordedConcat(h, a, b[..|b| - 1]);
    }
  }

  lemma ManifestsShow(s: Loop, i: Input, h: History)
    requires InStep(s, h)
    ensures var m := ManifestPhase(s, i); var r := Recorded(h, m.written);
      && r.shown == h.shown
      && m.loop == s.(manifestPending := m.loop.manifestPending)
      && (m.ending == Fine ==> InStep(m.loop, r) && (s.session.established ==> !m.loop.manifestPending))
  {
    var m := ManifestPhase(s, i);
    RecordedShort(h, Display(s.display), Network(s.network));
  }

  /** One more snapshot exactly if the turn sends one, behind both manifests; they are the right
      ones exactly if the page count is new or the cache was current. */
  ghost predicate Extended(config: Config, s: Loop, i: Input, h: History, r: History)
  {
    if SendsSnapshot(config, s, i) then
      && |r.shown| == |h.shown| + 1 && r.shown[..|h.shown|] == h.shown
      && var x := r.shown[|h.shown|];
         && x.display.Some? && x.network.Some?
         && (Matches(config, x) <==> !SamePages(s, i.latest.value.guests) || CacheCurrent(config, s))
    else r.shown == h.shown
  }

  /** A phase, and what holds of the loop and the record behind it. */
  ghost predicate Tells(config: Config, s: Loop, i: Input, h: History, p: Phase)
  {
    && (p.ending == Fine ==> InStep(p.loop, Recorded(h, p.written)))
    && Extended(config, s, i, h, Recorded(h, p.written))
    && p.loop.session == s.session && Cached(config, p.loop)
    && (CacheCurrent(config, p.loop) <==> StaysCurrent(config, s, i))
  }

  lemma UpdatePrepares(config: Config, s: Loop, i: Input, guests: nat, h: History)
    requires InStep(s, h) && s.session.open && s.session.established && !s.manifestPending
    ensures var u := UpdatePhase(config, s, i, guests); var b := Recorded(h, u.written);
      && b.shown == h.shown
      && (u.ending == Fine ==> b.display == Some(u.loop.display) && b.network == Some(u.loop.network))
      && (u.ending == Fine ==>
            (Matches(config, Shown(guests, b.display, b.network))
             <==> !SamePages(s, guests) || CacheCurrent(config, s)))
  {
    UpdateRecords(config, s, i, guests, h);
    UpdateEnds(config, s, i, guests);
  }

  lemma SnapshotRecorded(h: History, written: seq<HostMessage>, snapshot: HealthSnapshot)
    ensures var b := Recorded(h, written); var r := Recorded(h, written + [Snapshot(snapshot)]);
      r == b.(shown := b.shown + [Shown(snapshot.guests, b.display, b.network)])
  {
    RecordedLast(h, written, Snapshot(snapshot));
  }

  lemma SnapshotShows(config: Config, interval: nat, s: Loop, i: Input, h: History)
    requires InStep(s, h) && s.session.open && s.session.established && !s.manifestPending && Cached(config, s)
    ensures Tells(config, s, i, h, SnapshotPhase(config, interval, s, i))
  {
    if Reaches(s, i) {
      var snapshot := i.latest.value;
      var u := UpdatePhase(config, s, i, snapshot.guests);
      UpdateKeepsCache(config, s, i, snapshot.guests);
      UpdateEnds(config, s, i, snapshot.guests);
      UpdatePrepares(config, s, i, snapshot.guests, h);
      SnapshotRecorded(h, u.written, snapshot);
      var p := SnapshotPhase(config, interval, s, i);
      SameCache(config, u.loop, p.loop);
      SnapshotExtends(config, s, i, h, Recorded(h, u.written), Recorded(h, p.written));
    }
  }

  /** What the record gains by the snapshot behind an update. */
  lemma SnapshotExtends(config: Config, s: Loop, i: Input, h: History, b: History, r: History)
    requires Reaches(s, i) && b.shown == h.shown
    requires var guests := i.latest.value.guests;
      if SendsSnapshot(config, s, i) then
        && b.display.Some? && b.network.Some?
        && r == b.(shown := b.shown + [Shown(guests, b.display, b.network)])
        && (Matches(config, Shown(guests, b.display, b.network)) <==> !SamePages(s, guests) || CacheCurrent(config, s))
      else r == b
    ensures Extended(config, s, i, h, r)
  {
  }

  lemma SameCache(config: Config, s: Loop, t: Loop)
    requires s.display == t.display && s.network == t.network && s.configuredPages == t.configuredPages
    ensures CacheCurrent(config, s) <==> CacheCurrent(config, t)
    ensures Cached(config, s) <==> Cached(config, t)
  {
  }

  /** What is seen of a turn beforehand does not depend on whether its manifests are already out. */
  lemma SameBehindManifests(config: Config, s: Loop, t: Loop, i: Input)
    requires t == s.(manifestPending := false) && (s.manifestPending ==> i.displayOk && i.networkOk)
    ensures Reaches(t, i) <==> Reaches(s, i)
    ensures SendsSnapshot(config, t, i) <==> SendsSnapshot(config, s, i)
    ensures StaysCurrent(config, t, i) <==> StaysCurrent(config, s, i)
  {
  }

  lemma TellsThrough(config: Config, s: Loop, t: Loop, i: Input, h: History, between: History, p: Phase, w: Phase)
    requires t == s.(manifestPending := false) && (s.manifestPending ==> i.displayOk && i.networkOk)
    requires between.shown == h.shown && Tells(config, t, i, between, p)
    requires w.loop == p.loop && w.ending == p.ending && Recorded(h, w.written) == Recorded(between, p.written)
    ensures Tells(config, s, i, h, w)
  {
    SameBehindManifests(config, s, t, i);
    SameCache(config, s, t);
  }

  lemma TellsNothing(config: Config, s: Loop, i: Input, h: History, w: Phase)
    requires !Reaches(s, i) && Cached(config, s)
    requires w.loop.display == s.display && w.loop.network == s.network && w.loop.configuredPages == s.configuredPages
    requires w.loop.session == s.session && Recorded(h, w.written).shown == h.shown
    requires w.ending == Fine ==> InStep(w.loop, Recorded(h, w.written))
    ensures Tells(config, s, i, h, w)
  {
    SameCache(config, s, w.loop);
  }

  /** What one turn's writes do to the record and the cache. */
  lemma WritesTell(config: Config, interval: nat, s: Loop, i: Input, h: History)
    requires InStep(s, h) && s.session.open && Cached(config, s)
    ensures Tells(config, s, i, h, WritePhases(config, interval, s, i))
  {
    RecordedShort(h, Challenge(VERSION, s.session.nonce), Network(s.network));
    var w := WritePhases(config, interval, s, i);
    if !s.session.established {
      var written := HelloPhase(s, i).written;
      assert w.written == written || w.written == written + [] + [];
      TellsNothing(config, s, i, h, w);
    } else {
      ManifestsShow(s, i, h);
      var m := ManifestPhase(s, i);
      if m.ending == Fine {
        var p := SnapshotPhase(config, interval, m.loop, i);
        SameCache(config, s, m.loop);
        SnapshotShows(config, interval, m.loop, i, Recorded(h, m.written));
        RecordedConcat(h, m.written, p.written);
        assert [] + m.written + p.written == m.written + p.written;
        TellsThrough(config, s, m.loop, i, h, Recorded(h, m.written), p, w);
      } else {
        assert [] + m.written == m.written;
        TellsNothing(config, s, i, h, w);
      }
    }
  }

  /** Reports change nothing about the manifests the device has been shown. */
  lemma {:induction false} ReportsAreNotRecorded(h: History, reports: seq<Report>)
    ensures Recorded(h, reports) == h
    decreases |reports|
  {
    if reports != [] {
      ReportsAreNotRecorded(h, reports[..|reports| - 1]);
      assert IsReport(reports[|reports| - 1]);
    }
  }

  lemma {:induction false} ReadingKeepsStep(s: Loop, now: int, frames: seq<Result<DeviceMessage>>,
                                            handlings: seq<Handling>, h: History)
    requires InStep(s, h)
    ensures var r := ReadPhase(s, now, frames, handlings);
      && InStep(r.loop, h) && Recorded(h, r.written) == h
      && r.loop.display == s.display && r.loop.network == s.network && r.loop.configuredPages == s.configuredPages
    decreases |frames|
  {
    if frames != [] {
      if !s.session.synchronized {
        ReadingKeepsStep(s.(session := s.session.(synchronized := true)), now, frames[1..], handlings, h);
      } else if HandsOver(s.session, frames[0]) {
        var handling := NextHandling(handlings);
        ReportsAreNotRecorded(h, handling.reports);
        ReadingKeepsStep(s, now, frames[1..], Others(handlings), h);
        RecordedConcat(h, handling.reports, ReadPhase(s, now, frames[1..], Others(handlings)).written);
      } else {
        ReadingKeepsStep(Heard(s, now, frames[0]), now, frames[1..], handlings, h);
      }
    }
  }

  /** A turn ends as its writes did, or with what it read. */
  lemma OpenTurnReads(config: Config, interval: nat, s: Loop, i: Input)
    ensures var w, t := WritePhases(config, interval, s, i), OpenTurn(config, interval, s, i);
      if w.ending == Fine then
        var r := ReadPhase(w.loop, i.now, i.frames, i.handlings);
        t.written == w.written + r.written && (t.loop == r.loop || t.loop == Closed(r.loop))
      else
        t.written == w.written && (if w.ending == Exit then t == w else t.loop == Closed(w.loop))
  {
  }

  /** What follows the writes of a turn leaves the cache and the record as they are. */
  lemma OpenTurnEnds(config: Config, interval: nat, s: Loop, i: Input, h: History)
    requires var w := WritePhases(config, interval, s, i);
      w.ending == Fine ==> InStep(w.loop, Recorded(h, w.written))
    ensures var w, t := WritePhases(config, interval, s, i), OpenTurn(config, interval, s, i);
      && Recorded(h, t.written) == Recorded(h, w.written)
      && t.loop.display == w.loop.display && t.loop.network == w.loop.network
      && t.loop.configuredPages == w.loop.configuredPages
      && (t.ending == Exit || InStep(t.loop, Kept(Recorded(h, t.written), t.loop)))
  {
    var w := WritePhases(config, interval, s, i);
    OpenTurnReads(config, interval, s, i);
    if w.ending == Fine {
      var r := ReadPhase(w.loop, i.now, i.frames, i.handlings);
      ReadingKeepsStep(w.loop, i.now, i.frames, i.handlings, Recorded(h, w.written));
      RecordedConcat(h, w.written, r.written);
    }
  }

  lemma OpenTurnTells(config: Config, interval: nat, s: Loop, i: Input, h: History)
    requires InStep(s, h) && s.session.open && Cached(config, s)
    ensures var t := OpenTurn(config, interval, s, i); var r := Kept(Recorded(h, t.written), t.loop);
      && (t.ending == Exit || InStep(t.loop, r))
      && Extended(config, s, i, h, r) && Cached(config, t.loop)
      && (CacheCurrent(config, t.loop) <==> StaysCurrent(config, s, i))
  {
    WritesTell(config, interval, s, i, h);
    OpenTurnEnds(config, interval, s, i, h);
    SameCache(config, WritePhases(config, interval, s, i).loop, OpenTurn(config, interval, s, i).loop);
  }

  // ---------------------------------------------------------------- whole runs

  datatype Run = Run(loop: Loop, history: History, ended: bool)

  function Launched(config: Config, nonce: Nonce, now: int): Run
    requires Configured(config)
  {
    Run(Fresh(config, nonce, now), History(None, None, []), false)
  }

  function RunTurn(config: Config, interval: nat, r: Run, i: Input): Run
  {
    if r.ended then r
    else
      var opening := !r.loop.session.open && i.opens.Some?;
      var h := if opening then r.history.(display := None, network := None) else r.history;
      var t := Turn(config, interval, r.loop, i);
      Run(t.loop, Kept(Recorded(h, t.written), t.loop), t.ending == Exit)
  }

  function RunTurns(config: Config, interval: nat, r: Run, inputs: seq<Input>): Run
    decreases |inputs|
  {
    if inputs == [] then r
    else RunTurn(config, interval, RunTurns(config, interval, r, inputs[..|inputs| - 1]), inputs[|inputs| - 1])
  }

  ghost predicate AllShownComplete(h: History) {
    forall k :: 0 <= k < |h.shown| ==> h.shown[k].display.Some? && h.shown[k].network.Some?
  }

  ghost predicate AllShownMatch(config: Config, h: History) {
    forall k :: 0 <= k < |h.shown| ==> Matches(config, h.shown[k])
  }

  /** What every turn keeps. */
  ghost predicate Orderly(config: Config, r: Run) {
    (r.ended || InStep(r.loop, r.history)) && Cached(config, r.loop)
  }

  /** The turn sends a snapshot behind manifests that have gone out of date with the cache. */
  ghost predicate SendsWrong(config: Config, s: Loop, i: Input) {
    SendsSnapshot(config, s, i) && SamePages(s, i.latest.value.guests) && !CacheCurrent(config, s)
  }

  lemma ExtendedMatches(config: Config, s: Loop, i: Input, h: History, r: History)
    requires Extended(config, s, i, h, r)
    ensures AllShownComplete(h) ==> AllShownComplete(r)
    ensures AllShownMatch(config, r) <==> AllShownMatch(config, h) && !SendsWrong(config, s, i)
  {
    if SendsSnapshot(config, s, i) {
      assert forall k :: 0 <= k < |h.shown| ==> r.shown[k] == r.shown[..|h.shown|][k] == h.shown[k];
    }
  }

  /** One turn of a run, exactly. */
  lemma TurnTells(config: Config, interval: nat, r: Run, i: Input)
    requires Orderly(config, r) && !r.ended
    ensures var t, s := RunTurn(config, interval, r, i), Ready(r.loop, i);
      && Orderly(config, t)
      && (AllShownComplete(r.history) ==> AllShownComplete(t.history))
      && (AllShownMatch(config, t.history) <==> AllShownMatch(config, r.history) && !SendsWrong(config, s, i))
      && (CacheCurrent(config, t.loop) <==> StaysCurrent(config, s, i))
  {
    var s, t := Ready(r.loop, i), RunTurn(config, interval, r, i);
    SameCache(config, r.loop, s);
    if r.loop.session.open {
      OpenTurnTells(config, interval, r.loop, i, r.history);
      ExtendedMatches(config, s, i, r.history, t.history);
    } else if i.opens.Some? {
      var h := r.history.(display := None, network := None);
      OpenTurnTells(config, interval, s, i, h);
      ExtendedMatches(config, s, i, h, t.history);
    } else {
      assert Recorded(r.history, []) == r.history;
      ExtendedMatches(config, s, i, r.history, t.history);
    }
  }

  lemma LaunchedIsOrderly(config: Config, nonce: Nonce, start: int)
    requires Configured(config)
    ensures var r := Launched(config, nonce, start); Orderly(config, r) && CacheCurrent(config, r.loop)
  {
    assert DisplayForPages(config, GuestPageCount(0)) == Some(Launched(config, nonce, start).loop.display);
  }

  lemma {:induction false} RunIsOrderly(config: Config, interval: nat, nonce: Nonce, start: int, inputs: seq<Input>)
    requires Configured(config)
    ensures var r := RunTurns(config, interval, Launched(config, nonce, start), inputs);
      Orderly(config, r) && AllShownComplete(r.history)
    decreases |inputs|
  {
    if inputs == [] {
      LaunchedIsOrderly(config, nonce, start);
    } else {
      RunIsOrderly(config, interval, nonce, start, inputs[..|inputs| - 1]);
      var r := RunTurns(config, interval, Launched(config, nonce, start), inputs[..|inputs| - 1]);
      if !r.ended {
        TurnTells(config, interval, r, inputs[|inputs| - 1]);
      }
    }
  }

  /** In every run of the daemon, between the handshake and a health snapshot both manifests
      have been written to the device. */
  lemma ManifestsPrecedeSnapshots(config: Config, interval: nat, nonce: Nonce, start: int, inputs: seq<Input>)
    requires Configured(config)
    ensures AllShownComplete(RunTurns(config, interval, Launched(config, nonce, start), inputs).history)
  {
    RunIsOrderly(config, interval, nonce, start, inputs);
  }

  // ---------------------------------------------------------------- torn updates

  /** Half of an update went out in this run, and no full one since. */
  predicate Torn(config: Config, interval: nat, first: Run, inputs: seq<Input>)
    decreases |inputs|
  {
    if inputs == [] then false
    else
      var init, i := inputs[..|inputs| - 1], inputs[|inputs| - 1];
      var r := RunTurns(config, interval, first, init);
      var s := Ready(r.loop, i);
      if r.ended || !Reaches(s, i) then Torn(config, interval, first, init)
      else if HalfUpdate(config, s, i, i.latest.value.guests) then true
      else if FullUpdate(config, s, i, i.latest.value.guests) then false
      else Torn(config, interval, first, init)
  }

  /** A snapshot goes out at an unchanged page count between a torn update and its repair. */
  predicate ShowsTorn(config: Config, interval: nat, first: Run, inputs: seq<Input>)
    decreases |inputs|
  {
    inputs != [] &&
    var init, i := inputs[..|inputs| - 1], inputs[|inputs| - 1];
    var r := RunTurns(config, interval, first, init);
    var s := Ready(r.loop, i);
    || ShowsTorn(config, interval, first, init)
    || (&& !r.ended && Torn(config, interval, first, init)
        && Reaches(s, i) && SamePages(s, i.latest.value.guests) && i.snapshotOk)
  }

  /** Over every run: the cache is current unless an update is torn, and every snapshot is
      shown behind the manifests for its number of guests if and only if none goes out at an
      unchanged page count between a torn update and its repair. */
  lemma {:induction false} SnapshotsAreShownRight(config: Config, interval: nat, nonce: Nonce, start: int,
                                                  inputs: seq<Input>)
    requires Configured(config)
    ensures var first := Launched(config, nonce, start); var r := RunTurns(config, interval, first, inputs);
      && (CacheCurrent(config, r.loop) <==> !Torn(config, interval, first, inputs))
      && (AllShownMatch(config, r.history) <==> !ShowsTorn(config, interval, first, inputs))
    decreases |inputs|
  {
    if inputs == [] {
      LaunchedIsOrderly(config, nonce, start);
    } else {
      var init, i := inputs[..|inputs| - 1], inputs[|inputs| - 1];
      SnapshotsAreShownRight(config, interval, nonce, start, init);
      RunIsOrderly(config, interval, nonce, start, init);
      var r := RunTurns(config, interval, Launched(config, nonce, start), init);
      if !r.ended {
        TurnTells(config, interval, r, i);
        SameCache(config, r.loop, Ready(r.loop, i));
      }
    }
  }

  // ---------------------------------------------------------------- a run with a wrong manifest

  /** A turn that opens the port and hears its own nonce back. */
  function Handshake(nonce: Nonce): Input {
    Input(0, Some(nonce), None, true, true, true, true, true, true,
          [Ok(Hello([], None)), Ok(Hello([], Some(nonce)))], [], false)
  }

  /** A turn that measures this many guests; a new network manifest does not go out if `fails`. */
  function Measured(guests: nat, fails: bool): Input {
    Input(0, None, Some(HealthSnapshot(guests, [])), true, true, true, true, !fails, true, [], [], false)
  }

  lemma HandshakeEstablishes(config: Config, interval: nat, s: Loop, nonce: Nonce)
    requires !s.session.open
    ensures var t := Turn(config, interval, s, Handshake(nonce));
      && t.ending == Fine && t.loop.session == Session(true, nonce, true, true)
      && t.loop == s.(session := t.loop.session, manifestPending := true, nextHello := HELLO_PERIOD, nextUpdate := 0)
  {
    var i := Handshake(nonce);
    var w := WritePhases(config, interval, Ready(s, i), i);
    assert w.loop == Ready(s, i).(nextHello := HELLO_PERIOD) && w.ending == Fine;
    var one := w.loop.(session := Session(true, nonce, false, true));
    assert i.frames[1..] == [i.frames[1]] && i.frames[1..][1..] == [];
    var two := Heard(one, 0, i.frames[1]);
    assert ReadPhase(w.loop, 0, i.frames, []) == ReadPhase(one, 0, i.frames[1..], []);
    assert ReadPhase(one, 0, i.frames[1..], []) == ReadPhase(two, 0, [], []);
  }

  lemma HalfUpdateTears(config: Config, interval: nat, s: Loop, guests: nat)
    requires Reaches(s, Measured(guests, true)) && HalfUpdate(config, s, Measured(guests, true), guests)
    ensures var t := Turn(config, interval, s, Measured(guests, true));
      && t.ending == Error && !t.loop.session.open
      && t.loop.configuredPages == s.configuredPages
  {
  }

  /** Handshake, a tear at `many` guests, another handshake, and `few` guests again. */
  function TornRun(many: nat, few: nat): seq<Input> {
    [Handshake(0), Measured(many, true), Handshake(1), Measured(few, false)]
  }

  lemma TornRunShowsTorn(config: Config, interval: nat, start: int, many: nat, few: nat)
    requires Configured(config) && DisplayFor(config, many).Some? && NetworkFor(config, many).Some?
    requires DisplayFor(config, many) != DisplayFor(config, 0) && NetworkFor(config, many) != NetworkFor(config, 0)
    requires GuestPageCount(many) != GuestPageCount(0) == GuestPageCount(few)
    ensures ShowsTorn(config, interval, Launched(config, 0, start), TornRun(many, few))
  {
    var first, all := Launched(config, 0, start), TornRun(many, few);
    var i, j, k, l := all[0], all[1], all[2], all[3];
    assert all[..3] == [i, j, k] && [i, j, k][..2] == [i, j] && [i, j][..1] == [i] && [i][..0] == [];
    var a := RunTurns(config, interval, first, [i]);
    assert RunTurns(config, interval, first, []) == first;
    assert a == RunTurn(config, interval, first, i);
    HandshakeEstablishes(config, interval, first.loop, 0);
    var b := RunTurns(config, interval, first, [i, j]);
    assert b == RunTurn(config, interval, a, j);
    HalfUpdateTears(config, interval, a.loop, many);
    assert Torn(config, interval, first, [i, j]);
    var c := RunTurns(config, interval, first, [i, j, k]);
    assert c == RunTurn(config, interval, b, k);
    HandshakeEstablishes(config, interval, b.loop, 1);
    assert Torn(config, interval, first, [i, j, k]);
  }

  /** One guest view with pages, on the LCD and on the dashboard. */
  const GUESTS_EVERYWHERE := Config(
    map["guests" := ViewConfig("GUESTS", GuestsLayout(true, 0, 4))], ["guests"],
    Some(HttpOutput(true, "servatory", 80, ["guests"])),
    NtfyConfig(false, false, false, false, High, Urgent, Default, None), [], [], [], 3_000, 200)

  lemma GuestsEverywherePages(pages: nat)
    requires 1 <= pages <= 2
    ensures ViewsPages(GUESTS_EVERYWHERE, ["guests"], pages) == Some(GuestPages("GUESTS", pages))
  {
    assert ["guests"][..0] == [];
    assert [] + GuestPages("GUESTS", pages) == GuestPages("GUESTS", pages);
  }

  /** Such a run exists: with this configuration, five guests and then none, the last snapshot
      goes out behind the LCD manifest for five guests. */
  lemma TornUpdateShowsWrongManifest(interval: nat, start: int)
    ensures Configured(GUESTS_EVERYWHERE)
    ensures var r := RunTurns(GUESTS_EVERYWHERE, interval, Launched(GUESTS_EVERYWHERE, 0, start), TornRun(5, 0));
      !AllShownMatch(GUESTS_EVERYWHERE, r.history)
  {
    GuestsEverywherePages(1);
    GuestsEverywherePages(2);
    assert |GuestPages("GUESTS", 1)| == 1 && |GuestPages("GUESTS", 2)| == 2;
    TornRunShowsTorn(GUESTS_EVERYWHERE, interval, start, 5, 0);
    SnapshotsAreShownRight(GUESTS_EVERYWHERE, interval, 0, start, TornRun(5, 0));
  }
}
