/** What the daemon's loop sends and when: the snapshot it was given, its own challenge, and how
    far apart they are, over whole runs. */
module Sending {
  import opened Common
  import opened Protocol
  import opened Link
  import opened Pagination
  import opened Daemon
  import Manifests

  // ---------------------------------------------------------------- what is written

  function Snapshots(written: seq<HostMessage>): seq<HealthSnapshot>
  {
    if written == [] then []
    else
      var last := written[|written| - 1];
      Snapshots(written[..|written| - 1]) + if last.Snapshot? then [last.snapshot] else []
  }

  function Challenges(written: seq<HostMessage>): seq<Nonce>
  {
    if written == [] then []
    else
      var last := written[|written| - 1];
      Challenges(written[..|written| - 1]) + if last.Challenge? then [last.session] else []
  }

  lemma {:induction false} WrittenConcat(a: seq<HostMessage>, b: seq<HostMessage>)
    ensures Snapshots(a + b) == Snapshots(a) + Snapshots(b) && Challenges(a + b) == Challenges(a) + Challenges(b)
    decreases |b|
  {
    if b == [] {
      assert a + b == a;
    } else {
      assert (a + b)[..|a + b| - 1] == a + b[..|b| - 1];
      WrittenConcat(a, b[..|b| - 1]);
    }
  }

  ghost predicate Neither(written: seq<HostMessage>) {
    forall k :: 0 <= k < |written| ==> !written[k].Snapshot? && !written[k].Challenge?
  }

  lemma {:induction false} NeitherIsNone(written: seq<HostMessage>)
    requires Neither(written)
    ensures Snapshots(written) == [] && Challenges(written) == []
  {
    if written != [] {
      NeitherIsNone(written[..|written| - 1]);
    }
  }

  lemma OneWritten(m: HostMessage)
    ensures Snapshots([m]) == (if m.Snapshot? then [m.snapshot] else [])
    ensures Challenges([m]) == if m.Challenge? then [m.session] else []
  {
    assert [m][..0] == [];
  }

  /** A challenge is due, and its write succeeds. */
  predicate SendsChallenge(s: Loop, i: Input) {
    s.session.open && !s.session.established && i.now >= s.nextHello && i.helloOk
  }

  lemma {:induction false} ReadingWritesReports(s: Loop, now: int, frames: seq<Result<DeviceMessage>>,
                                                handlings: seq<Handling>)
    ensures Neither(ReadPhase(s, now, frames, handlings).written)
    decreases |frames|
  {
    if frames != [] {
      if !s.session.synchronized {
        ReadingWritesReports(s.(session := s.session.(synchronized := true)), now, frames[1..], handlings);
      } else if HandsOver(s.session, frames[0]) {
        var reports := NextHandling(handlings).reports;
        assert forall k :: 0 <= k < |reports| ==> IsReport(reports[k]);
        ReadingWritesReports(s, now, frames[1..], Others(handlings));
      } else {
        ReadingWritesReports(Heard(s, now, frames[0]), now, frames[1..], handlings);
      }
    }
  }

  lemma UpdateWritesManifests(config: Config, s: Loop, i: Input, guests: nat)
    ensures Neither(UpdatePhase(config, s, i, guests).written)
  {
  }

  lemma SnapshotPhaseSends(config: Config, interval: nat, s: Loop, i: Input)
    requires s.session.open && s.session.established && !s.manifestPending
    ensures var p := SnapshotPhase(config, interval, s, i);
      && Challenges(p.written) == []
      && Snapshots(p.written) == if Manifests.SendsSnapshot(config, s, i) then [i.latest.value] else []
  {
    if Manifests.Reaches(s, i) {
      var u := UpdatePhase(config, s, i, i.latest.value.guests);
      UpdateWritesManifests(config, s, i, i.latest.value.guests);
      NeitherIsNone(u.written);
      Manifests.UpdateEnds(config, s, i, i.latest.value.guests);
      WrittenConcat(u.written, [Snapshot(i.latest.value)]);
      OneWritten(Snapshot(i.latest.value));
    }
  }

  /** The writes of a turn, with and without a handshake. */
  lemma WritesInParts(config: Config, interval: nat, s: Loop, i: Input)
    ensures var w, m := WritePhases(config, interval, s, i), ManifestPhase(s, i);
      if !s.session.established then w.written == HelloPhase(s, i).written
      else if m.ending == Fine then w.written == m.written + SnapshotPhase(config, interval, m.loop, i).written
      else w.written == m.written
  {
    var hello := HelloPhase(s, i);
    if s.session.established {
      var m := ManifestPhase(s, i);
      var p := SnapshotPhase(config, interval, m.loop, i);
      assert hello == Phase(s, [], Fine) && [] + m.written == m.written;
    } else {
      assert hello.written + [] + [] == hello.written;
    }
  }

  lemma ManifestsAreNeither(s: Loop, i: Input)
    ensures Neither(ManifestPhase(s, i).written)
  {
  }

  lemma HelloSends(s: Loop, i: Input)
    requires s.session.open && !s.session.established
    ensures var written := HelloPhase(s, i).written;
      Snapshots(written) == [] && Challenges(written) == if SendsChallenge(s, i) then [s.session.nonce] else []
  {
    OneWritten(Challenge(VERSION, s.session.nonce));
  }

  lemma ManifestsThenSnapshot(config: Config, interval: nat, s: Loop, i: Input)
    requires s.session.open && s.session.established && ManifestPhase(s, i).ending == Fine
    ensures var m := ManifestPhase(s, i); var written := m.written + SnapshotPhase(config, interval, m.loop, i).written;
      && Snapshots(written) == (if Manifests.SendsSnapshot(config, s, i) then [i.latest.value] else [])
      && Challenges(written) == []
  {
    var m := ManifestPhase(s, i);
    ManifestsAreNeither(s, i);
    NeitherIsNone(m.written);
    SnapshotPhaseSends(config, interval, m.loop, i);
    Manifests.SameBehindManifests(config, s, m.loop, i);
    WrittenConcat(m.written, SnapshotPhase(config, interval, m.loop, i).written);
  }

  lemma WritesSend(config: Config, interval: nat, s: Loop, i: Input)
    requires s.session.open
    ensures var w := WritePhases(config, interval, s, i);
      && Snapshots(w.written) == (if Manifests.SendsSnapshot(config, s, i) then [i.latest.value] else [])
      && Challenges(w.written) == if SendsChallenge(s, i) then [s.session.nonce] else []
  {
    WritesInParts(config, interval, s, i);
    if !s.session.established {
      HelloSends(s, i);
    } else if ManifestPhase(s, i).ending == Fine {
      ManifestsThenSnapshot(config, interval, s, i);
    } else {
      ManifestsAreNeither(s, i);
      NeitherIsNone(ManifestPhase(s, i).written);
    }
  }

  lemma OpenTurnSends(config: Config, interval: nat, s: Loop, i: Input)
    requires s.session.open
    ensures var t, w := OpenTurn(config, interval, s, i), WritePhases(config, interval, s, i);
      Snapshots(t.written) == Snapshots(w.written) && Challenges(t.written) == Challenges(w.written)
  {
    Manifests.OpenTurnReads(config, interval, s, i);
    var w := WritePhases(config, interval, s, i);
    if w.ending == Fine {
      var heard := ReadPhase(w.loop, i.now, i.frames, i.handlings);
      ReadingWritesReports(w.loop, i.now, i.frames, i.handlings);
      NeitherIsNone(heard.written);
      WrittenConcat(w.written, heard.written);
    }
  }

  /** Every snapshot that a turn writes is the one it was given, whole, and it writes one exactly if
      it gets there: in an open and established session, both manifests out, due, with both
      manifests for its number of guests out or unchanged, and its own write succeeding. Every
      challenge is for the session's own nonce, one exactly if one is due. */
  lemma TurnSends(config: Config, interval: nat, s: Loop, i: Input)
    ensures var t, r := Turn(config, interval, s, i), Ready(s, i);
      && Snapshots(t.written) == (if Manifests.SendsSnapshot(config, r, i) then [i.latest.value] else [])
      && Challenges(t.written) == if SendsChallenge(r, i) then [r.session.nonce] else []
  {
    var r := Ready(s, i);
    if r.session.open {
      WritesSend(config, interval, r, i);
      OpenTurnSends(config, interval, r, i);
    }
  }

  // ---------------------------------------------------------------- when the next ones are due

  /** The turn gets to reading: no write that it attempts fails, and there are manifests for what was
      measured. */
  predicate GetsToRead(config: Config, s: Loop, i: Input)
  {
    && s.session.open
    && (!s.session.established && i.now >= s.nextHello ==> i.helloOk)
    && (s.session.established && s.manifestPending ==> i.displayOk && i.networkOk)
    && (Manifests.Reaches(s, i) ==> Manifests.SendsSnapshot(config, s, i))
  }

  /** Among these frames the handshake is completed. */
  predicate Establishes(h: Session, frames: seq<Result<DeviceMessage>>, handlings: seq<Handling>)
    decreases |frames|
  {
    if frames == [] then false
    else if !h.synchronized then Establishes(h.(synchronized := true), frames[1..], handlings)
    else if HandsOver(h, frames[0]) then
      NextHandling(handlings).verdict == Continues && Establishes(h, frames[1..], Others(handlings))
    else
      || (!h.established && OnFrame(h, frames[0]).established)
      || Establishes(OnFrame(h, frames[0]), frames[1..], handlings)
  }

  /** Among these frames a Hello is heard that does not acknowledge this session. */
  predicate Mismatches(h: Session, frames: seq<Result<DeviceMessage>>, handlings: seq<Handling>)
    decreases |frames|
  {
    if frames == [] then false
    else if !h.synchronized then Mismatches(h.(synchronized := true), frames[1..], handlings)
    else if HandsOver(h, frames[0]) then
      NextHandling(handlings).verdict == Continues && Mismatches(h, frames[1..], Others(handlings))
    else
      || (frames[0].Ok? && frames[0].value.Hello? && frames[0].value.acknowledgedSession != Some(h.nonce))
      || Mismatches(OnFrame(h, frames[0]), frames[1..], handlings)
  }

  lemma {:induction false} ReadingTimes(s: Loop, now: int, frames: seq<Result<DeviceMessage>>, handlings: seq<Handling>)
    ensures var r := ReadPhase(s, now, frames, handlings).loop;
      && r.nextUpdate == (if Establishes(s.session, frames, handlings) then now else s.nextUpdate)
      && r.nextHello == (if Mismatches(s.session, frames, handlings) then now else s.nextHello)
      && (r.session.established ==> s.session.established || Establishes(s.session, frames, handlings))
    decreases |frames|
  {
    if frames != [] {
      if !s.session.synchronized {
        ReadingTimes(s.(session := s.session.(synchronized := true)), now, frames[1..], handlings);
      } else if HandsOver(s.session, frames[0]) {
        ReadingTimes(s, now, frames[1..], Others(handlings));
      } else {
        ReadingTimes(Heard(s, now, frames[0]), now, frames[1..], handlings);
      }
    }
  }

  lemma SnapshotPhaseTimes(config: Config, interval: nat, s: Loop, i: Input)
    requires s.session.open && s.session.established && !s.manifestPending
    ensures var p := SnapshotPhase(config, interval, s, i);
      && (p.ending == Fine <==> (Manifests.Reaches(s, i) ==> Manifests.SendsSnapshot(config, s, i)))
      && p.loop.nextUpdate == (if Manifests.SendsSnapshot(config, s, i) then i.now + interval else s.nextUpdate)
      && p.loop.nextHello == s.nextHello && p.loop.session == s.session
  {
    if Manifests.Reaches(s, i) {
      Manifests.UpdateEnds(config, s, i, i.latest.value.guests);
      UpdateKeepsTimes(config, s, i, i.latest.value.guests);
    }
  }

  lemma UpdateKeepsTimes(config: Config, s: Loop, i: Input, guests: nat)
    ensures var u := UpdatePhase(config, s, i, guests).loop;
      u.nextUpdate == s.nextUpdate && u.nextHello == s.nextHello && u.session == s.session
  {
  }

  lemma WriteTimes(config: Config, interval: nat, s: Loop, i: Input)
    requires s.session.open
    ensures var w := WritePhases(config, interval, s, i);
      && (w.ending == Fine <==> GetsToRead(config, s, i))
      && w.loop.nextUpdate == (if Manifests.SendsSnapshot(config, s, i) then i.now + interval else s.nextUpdate)
      && w.loop.nextHello == (if SendsChallenge(s, i) then i.now + 1_000 else s.nextHello)
      && w.loop.session == s.session
  {
    if s.session.established {
      var m := ManifestPhase(s, i);
      if m.ending == Fine {
        SnapshotPhaseTimes(config, interval, m.loop, i);
        Manifests.SameBehindManifests(config, s, m.loop, i);
      }
    }
  }

  /** When a turn leaves the next snapshot and the next challenge due: a snapshot puts the next one
      off by the interval, and a completed handshake makes one due at once; a challenge puts the
      next one off by a second, and a Hello for another session makes one due at once. */
  lemma TurnTimes(config: Config, interval: nat, s: Loop, i: Input)
    ensures var t, r := Turn(config, interval, s, i).loop, Ready(s, i);
      var gets := GetsToRead(config, r, i);
      && t.nextUpdate == (if gets && Establishes(r.session, i.frames, i.handlings) then i.now
                          else if Manifests.SendsSnapshot(config, r, i) then i.now + interval
                          else r.nextUpdate)
      && t.nextHello == (if gets && Mismatches(r.session, i.frames, i.handlings) then i.now
                         else if SendsChallenge(r, i) then i.now + 1_000
                         else r.nextHello)
      && (t.session.established ==>
            r.session.established || (gets && Establishes(r.session, i.frames, i.handlings)))
  {
    var r := Ready(s, i);
    if r.session.open {
      WriteTimes(config, interval, r, i);
      var w := WritePhases(config, interval, r, i);
      ReadingTimes(w.loop, i.now, i.frames, i.handlings);
      Manifests.OpenTurnReads(config, interval, r, i);
    }
  }

  // ---------------------------------------------------------------- how far apart, over whole runs

  ghost predicate TurnAt(config: Config, interval: nat, states: seq<Manifests.Run>, inputs: seq<Input>, n: nat) {
    && n < |inputs| && n + 1 < |states|
    && states[n + 1] == Manifests.RunTurn(config, interval, states[n], inputs[n])
  }

  /** The run in front of each of its turns, and behind the last. */
  ghost predicate StatesOf(config: Config, interval: nat, states: seq<Manifests.Run>, inputs: seq<Input>) {
    |states| == |inputs| + 1 && forall n :: 0 <= n < |inputs| ==> TurnAt(config, interval, states, inputs, n)
  }

  /** Every run has them. */
  lemma {:induction false} RunHasStates(config: Config, interval: nat, first: Manifests.Run, inputs: seq<Input>)
    returns (states: seq<Manifests.Run>)
    ensures StatesOf(config, interval, states, inputs) && states[0] == first
    ensures states[|inputs|] == Manifests.RunTurns(config, interval, first, inputs)
    decreases |inputs|
  {
    if inputs == [] {
      states := [first];
    } else {
      var init, i := inputs[..|inputs| - 1], inputs[|inputs| - 1];
      var before := RunHasStates(config, interval, first, init);
      states := OneStateMore(config, interval, before, init, i);
      assert init + [i] == inputs;
    }
  }

  lemma OneStateMore(config: Config, interval: nat, states: seq<Manifests.Run>, inputs: seq<Input>, i: Input)
    returns (more: seq<Manifests.Run>)
    requires StatesOf(config, interval, states, inputs)
    ensures StatesOf(config, interval, more, inputs + [i]) && more[0] == states[0]
    ensures more[|inputs| + 1] == Manifests.RunTurn(config, interval, states[|inputs|], i)
  {
    more := states + [Manifests.RunTurn(config, interval, states[|inputs|], i)];
    forall n | 0 <= n <= |inputs| ensures TurnAt(config, interval, more, inputs + [i], n) {
      assert n < |inputs| ==> TurnAt(config, interval, states, inputs, n);
    }
  }

  /** In this turn of a run a snapshot, or a challenge, is sent. */
  predicate SnapshotIn(config: Config, r: Manifests.Run, i: Input) {
    !r.ended && Manifests.SendsSnapshot(config, Ready(r.loop, i), i)
  }

  predicate ChallengeIn(r: Manifests.Run, i: Input) {
    !r.ended && SendsChallenge(Ready(r.loop, i), i)
  }

  /** A handshake is completed, or a Hello for another session is heard, or the port is opened. */
  predicate CompletesIn(config: Config, r: Manifests.Run, i: Input) {
    var s := Ready(r.loop, i);
    !r.ended && GetsToRead(config, s, i) && Establishes(s.session, i.frames, i.handlings)
  }

  predicate MishearsIn(config: Config, r: Manifests.Run, i: Input) {
    var s := Ready(r.loop, i);
    !r.ended && GetsToRead(config, s, i) && Mismatches(s.session, i.frames, i.handlings)
  }

  predicate OpensIn(r: Manifests.Run, i: Input) {
    !r.ended && !r.loop.session.open && i.opens.Some?
  }

  /** An established session's next snapshot is not due before this. */
  predicate NotBefore(r: Manifests.Run, at: int) {
    r.ended || !r.loop.session.open || !r.loop.session.established || r.loop.nextUpdate >= at
  }

  lemma OpenStays(config: Config, interval: nat, s: Loop, i: Input)
    ensures Turn(config, interval, s, i).loop.session.open ==> Ready(s, i).session.open
  {
  }

  lemma StillNotBefore(config: Config, interval: nat, r: Manifests.Run, i: Input, at: int)
    requires NotBefore(r, at) && !CompletesIn(config, r, i)
    ensures NotBefore(Manifests.RunTurn(config, interval, r, i), at)
  {
    if !r.ended {
      TurnTimes(config, interval, r.loop, i);
      OpenStays(config, interval, r.loop, i);
    }
  }

  lemma NotBeforeItsNext(config: Config, interval: nat, r: Manifests.Run, i: Input)
    requires SnapshotIn(config, r, i) && !CompletesIn(config, r, i)
    ensures NotBefore(Manifests.RunTurn(config, interval, r, i), i.now + interval)
  {
    TurnTimes(config, interval, r.loop, i);
  }

  /** What is put off by the n-th turn's start is still put off behind it. */
  ghost predicate KeepsPutOff(states: seq<Manifests.Run>, n: nat, at: int)
    requires n + 1 < |states|
  {
    NotBefore(states[n], at) ==> NotBefore(states[n + 1], at)
  }

  lemma {:induction false} StillPutOff(states: seq<Manifests.Run>, j: nat, k: nat, at: int)
    requires j <= k < |states| && NotBefore(states[j], at) && forall n :: j <= n < k ==> KeepsPutOff(states, n, at)
    ensures NotBefore(states[k], at)
  {
    if j < k {
      StillPutOff(states, j, k - 1, at);
      assert KeepsPutOff(states, k - 1, at);
    }
  }

  /** Snapshots keep their distance: in every run two of them lie at least the interval apart, unless
      a handshake was completed in between, be it in another opening of the port. */
  lemma SnapshotsKeepTheirDistance(config: Config, interval: nat, states: seq<Manifests.Run>, inputs: seq<Input>,
                                   j: nat, k: nat)
    requires StatesOf(config, interval, states, inputs) && j < k < |inputs|
    requires SnapshotIn(config, states[j], inputs[j]) && SnapshotIn(config, states[k], inputs[k])
    requires forall n :: j <= n < k ==> !CompletesIn(config, states[n], inputs[n])
    ensures inputs[k].now >= inputs[j].now + interval
  {
    var at := inputs[j].now + interval;
    assert TurnAt(config, interval, states, inputs, j);
    NotBeforeItsNext(config, interval, states[j], inputs[j]);
    forall n | j < n < k ensures KeepsPutOff(states, n, at) {
      assert TurnAt(config, interval, states, inputs, n);
      if NotBefore(states[n], at) {
        StillNotBefore(config, interval, states[n], inputs[n], at);
      }
    }
    StillPutOff(states, j + 1, k, at);
  }

  lemma ChallengePutsOff(config: Config, interval: nat, r: Manifests.Run, i: Input, at: int)
    requires !MishearsIn(config, r, i)
    requires r.ended || ChallengeIn(r, i) || (r.loop.nextHello >= at && !OpensIn(r, i))
    requires ChallengeIn(r, i) ==> i.now + 1_000 >= at
    ensures var t := Manifests.RunTurn(config, interval, r, i); t.ended || t.loop.nextHello >= at
  {
    if !r.ended {
      TurnTimes(config, interval, r.loop, i);
    }
  }

  lemma {:induction false} DueBehindChallenge(config: Config, interval: nat, states: seq<Manifests.Run>,
                                              inputs: seq<Input>, j: nat, k: nat)
    requires StatesOf(config, interval, states, inputs) && j < k <= |inputs| && ChallengeIn(states[j], inputs[j])
    requires forall n :: j <= n < k ==> !MishearsIn(config, states[n], inputs[n])
    requires forall n :: j < n < k ==> !OpensIn(states[n], inputs[n])
    ensures states[k].ended || states[k].loop.nextHello >= inputs[j].now + 1_000
    decreases k
  {
    if k - 1 > j {
      DueBehindChallenge(config, interval, states, inputs, j, k - 1);
    }
    assert TurnAt(config, interval, states, inputs, k - 1);
    ChallengePutsOff(config, interval, states[k - 1], inputs[k - 1], inputs[j].now + 1_000);
  }

  /** So do challenges: two of them lie at least a second apart, unless the port was opened or a
      Hello for another session was heard in between. */
  lemma ChallengesKeepTheirDistance(config: Config, interval: nat, states: seq<Manifests.Run>, inputs: seq<Input>,
                                    j: nat, k: nat)
    requires StatesOf(config, interval, states, inputs) && j < k < |inputs|
    requires ChallengeIn(states[j], inputs[j]) && ChallengeIn(states[k], inputs[k])
    requires forall n :: j <= n < k ==> !MishearsIn(config, states[n], inputs[n])
    requires forall n :: j < n <= k ==> !OpensIn(states[n], inputs[n])
    ensures inputs[k].now >= inputs[j].now + 1_000
  {
    DueBehindChallenge(config, interval, states, inputs, j, k);
  }
}
