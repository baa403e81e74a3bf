/** Everything a turn of the daemon's loop writes, in order, and how the turn ends. */
module Writing {
  import opened Common
  import opened Protocol
  import opened Link
  import opened Pagination
  import opened Daemon
  import opened Manifests
  import opened Sending

  /** The manifests of an opening, the LCD's before the network's, up to the first that fails. */
  function Owed(s: Loop, i: Input): seq<HostMessage>
  {
    if !s.session.open || !s.session.established || !s.manifestPending || !i.displayOk then []
    else [Display(s.display)] + if i.networkOk then [Network(s.network)] else []
  }

  /** The manifests replaced because the number of guest pages has changed, up to the first that fails. */
  function Renewed(config: Config, s: Loop, i: Input): seq<HostMessage>
  {
    if !Reaches(s, i) || !Recompiles(config, s, i.latest.value.guests) then []
    else
      var display := DisplayFor(config, i.latest.value.guests).value;
      var network := NetworkFor(config, i.latest.value.guests).value;
      if display == s.display then RenewedNetwork(s, i, network)
      else if i.newDisplayOk then [Display(display)] + RenewedNetwork(s, i, network)
      else []
  }

  function RenewedNetwork(s: Loop, i: Input, network: NetworkConfig): seq<HostMessage> {
    if network != s.network && i.newNetworkOk then [Network(network)] else []
  }

  function Measured(config: Config, s: Loop, i: Input): seq<HostMessage> {
    if SendsSnapshot(config, s, i) then [Snapshot(i.latest.value)] else []
  }

  function Challenged(s: Loop, i: Input): seq<HostMessage> {
    if SendsChallenge(s, i) then [Challenge(VERSION, s.session.nonce)] else []
  }

  ghost predicate OnlyReports(written: seq<HostMessage>) {
    forall k :: 0 <= k < |written| ==> IsReport(written[k])
  }

  lemma {:induction false} ReadingOnlyReports(s: Loop, now: int, frames: seq<Result<DeviceMessage>>,
                                              handlings: seq<Handling>)
    ensures OnlyReports(ReadPhase(s, now, frames, handlings).written)
    decreases |frames|
  {
    if frames != [] {
      if !s.session.synchronized {
        ReadingOnlyReports(s.(session := s.session.(synchronized := true)), now, frames[1..], handlings);
      } else if HandsOver(s.session, frames[0]) {
        var reports := NextHandling(handlings).reports;
        assert forall k :: 0 <= k < |reports| ==> IsReport(reports[k]);
        ReadingOnlyReports(s, now, frames[1..], Others(handlings));
      } else {
        ReadingOnlyReports(Heard(s, now, frames[0]), now, frames[1..], handlings);
      }
    }
  }

  lemma UpdateRenews(config: Config, s: Loop, i: Input)
    requires Reaches(s, i)
    ensures UpdatePhase(config, s, i, i.latest.value.guests).written == Renewed(config, s, i)
  {
  }

  lemma SnapshotPhaseWrites(config: Config, interval: nat, s: Loop, i: Input)
    requires s.session.open && s.session.established && !s.manifestPending
    ensures SnapshotPhase(config, interval, s, i).written == Renewed(config, s, i) + Measured(config, s, i)
  {
    if Reaches(s, i) {
      UpdateRenews(config, s, i);
      UpdateEnds(config, s, i, i.latest.value.guests);
    }
  }

  lemma WritesInOrder(config: Config, interval: nat, s: Loop, i: Input)
    requires s.session.open
    ensures WritePhases(config, interval, s, i).written
         == Challenged(s, i) + Owed(s, i) + (Renewed(config, s, i) + Measured(config, s, i))
  {
    WritesInParts(config, interval, s, i);
    if s.session.established {
      var m := ManifestPhase(s, i);
      assert m.written == Owed(s, i) && [] + m.written == m.written;
      if m.ending == Fine {
        SnapshotPhaseWrites(config, interval, m.loop, i);
      } else {
        assert m.written + ([] + []) == m.written;
      }
    } else {
      assert Challenged(s, i) + [] + ([] + []) == Challenged(s, i);
    }
  }

  /** What a turn writes: the challenge if one is due; the opening's manifests; those that have to be
      replaced; the snapshot; and behind them, only if all of these went out, the handler's reports. */
  lemma TurnWrites(config: Config, interval: nat, s: Loop, i: Input) returns (reports: seq<HostMessage>)
    ensures var r := Ready(s, i);
      && Turn(config, interval, s, i).written
         == Challenged(r, i) + Owed(r, i) + (Renewed(config, r, i) + Measured(config, r, i)) + reports
      && OnlyReports(reports) && (reports != [] ==> GetsToRead(config, r, i))
  {
    reports := [];
    var r := Ready(s, i);
    if r.session.open {
      WritesInOrder(config, interval, r, i);
      OpenTurnReads(config, interval, r, i);
      WriteTimes(config, interval, r, i);
      var w := WritePhases(config, interval, r, i);
      if w.ending == Fine {
        reports := ReadPhase(w.loop, i.now, i.frames, i.handlings).written;
        ReadingOnlyReports(w.loop, i.now, i.frames, i.handlings);
      }
    }
  }

  // ---------------------------------------------------------------- how a turn ends

  /** What the shutdown handler makes of these frames in the end: its first verdict that is not to
      go on, among the requests that are handed over. */
  function Decided(h: Session, frames: seq<Result<DeviceMessage>>, handlings: seq<Handling>): Verdict
    decreases |frames|
  {
    if frames == [] then Continues
    else if !h.synchronized then Decided(h.(synchronized := true), frames[1..], handlings)
    else if HandsOver(h, frames[0]) then
      var verdict := NextHandling(handlings).verdict;
      if verdict != Continues then verdict else Decided(h, frames[1..], Others(handlings))
    else Decided(OnFrame(h, frames[0]), frames[1..], handlings)
  }

  lemma {:induction false} ReadingEnds(s: Loop, now: int, frames: seq<Result<DeviceMessage>>, handlings: seq<Handling>)
    ensures var r, decided := ReadPhase(s, now, frames, handlings), Decided(s.session, frames, handlings);
      && (r.ending == Exit <==> decided == Exits) && (r.ending == Fine <==> decided == Continues)
      && r.loop.session.open == s.session.open
    decreases |frames|
  {
    if frames != [] {
      if !s.session.synchronized {
        ReadingEnds(s.(session := s.session.(synchronized := true)), now, frames[1..], handlings);
      } else if HandsOver(s.session, frames[0]) {
        ReadingEnds(s, now, frames[1..], Others(handlings));
      } else {
        ReadingEnds(Heard(s, now, frames[0]), now, frames[1..], handlings);
      }
    }
  }

  /** There is no manifest for what was measured, and one would be needed. */
  predicate Unshowable(config: Config, s: Loop, i: Input) {
    && Reaches(s, i) && GuestPageCount(i.latest.value.guests) != s.configuredPages
    && (DisplayFor(config, i.latest.value.guests).None? || NetworkFor(config, i.latest.value.guests).None?)
  }

  lemma WritesEnd(config: Config, interval: nat, s: Loop, i: Input)
    requires s.session.open
    ensures var w := WritePhases(config, interval, s, i);
      && (w.ending == Exit <==> Unshowable(config, s, i)) && (w.ending == Fine <==> GetsToRead(config, s, i))
      && w.loop.session == s.session
  {
    WriteTimes(config, interval, s, i);
  }

  /** The process ends with a turn exactly if a manifest that is needed cannot be compiled or the
      shutdown handler says so. A port stays open exactly if nothing goes wrong with it: every write
      attempted and the reading succeed, and the handler does not give it up. */
  lemma TurnEnds(config: Config, interval: nat, s: Loop, i: Input)
    ensures var t, r := Turn(config, interval, s, i), Ready(s, i);
      var decided := Decided(r.session, i.frames, i.handlings);
      && (t.ending == Exit <==> Unshowable(config, r, i) || (GetsToRead(config, r, i) && decided == Exits))
      && (t.ending == Fine <==>
            !r.session.open || (GetsToRead(config, r, i) && decided == Continues && !i.readFails))
      && (t.loop.session.open <==> r.session.open && t.ending != Error)
  {
    var r := Ready(s, i);
    if r.session.open {
      WritesEnd(config, interval, r, i);
      var w := WritePhases(config, interval, r, i);
      ReadingEnds(w.loop, i.now, i.frames, i.handlings);
      assert Turn(config, interval, s, i) == OpenTurn(config, interval, r, i);
    }
  }

  /** An opening starts anew: whatever was there before, the first turn writes the challenge for the
      new nonce and nothing else, and the manifests are owed again. */
  lemma OpeningStartsAnew(config: Config, interval: nat, s: Loop, i: Input)
    requires !s.session.open && i.opens.Some? && i.frames == []
    ensures var t := Turn(config, interval, s, i);
      && t.written == (if i.helloOk then [Challenge(VERSION, i.opens.value)] else [])
      && t.loop.manifestPending && !t.loop.session.established && !t.loop.session.synchronized
      && t.loop.session.nonce == i.opens.value
      && t.loop.display == s.display && t.loop.network == s.network && t.loop.configuredPages == s.configuredPages
  {
  }
}
