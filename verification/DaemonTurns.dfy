/** The turns of the daemon's loop as runs of the link's steps, spelt out: what is proved of
    every run of the link holds of the loop, which reads and writes many frames in one turn. */
module DaemonRefinement {
  import opened Protocol
  import opened Link
  import opened Pagination
  import opened Daemon
  import Stick

  /** What the link lets the daemon write in its current session. */
  ghost predicate Permitted(h: Session, m: HostMessage) {
    if m.Challenge? then !h.established && m == Challenge(VERSION, h.nonce) else h.established
  }

  ghost predicate AllPermitted(h: Session, written: seq<HostMessage>) {
    forall k :: 0 <= k < |written| ==> Permitted(h, written[k])
  }

  lemma UpdateIsPermitted(config: Config, s: Loop, i: Input, guests: nat)
    requires s.session.established
    ensures var u := UpdatePhase(config, s, i, guests);
      AllPermitted(s.session, u.written) && u.loop.session == s.session
  {
  }

  lemma SnapshotIsPermitted(config: Config, interval: nat, s: Loop, i: Input)
    ensures var p := SnapshotPhase(config, interval, s, i);
      AllPermitted(s.session, p.written) && p.loop.session == s.session
  {
    if s.session.established && i.latest.Some? {
      UpdateIsPermitted(config, s, i, i.latest.value.guests);
    }
  }

  lemma ManifestsArePermitted(s: Loop, i: Input)
    ensures var m := ManifestPhase(s, i);
      AllPermitted(s.session, m.written) && m.loop.session == s.session
  {
  }

  lemma WritesArePermitted(config: Config, interval: nat, s: Loop, i: Input)
    ensures var w := WritePhases(config, interval, s, i);
      AllPermitted(s.session, w.written) && w.loop.session == s.session
  {
    var hello := HelloPhase(s, i);
    ManifestsArePermitted(hello.loop, i);
    SnapshotIsPermitted(config, interval, ManifestPhase(hello.loop, i).loop, i);
  }

  // ---------------------------------------------------------------- the steps of a turn

  /** The step that writes a message. */
  function WriteAct(m: HostMessage): Act {
    if m.Challenge? then Greet else Tell(m)
  }

  function WriteActs(written: seq<HostMessage>): seq<Act> {
    seq(|written|, k requires 0 <= k < |written| => WriteAct(written[k]))
  }

  /** What a read has taken off the line and nobody looks at any more. */
  function LossActs(n: nat): seq<Act> {
    seq(n, _ => LoseToHost(0))
  }

  /** Every frame is read; the handler's reports follow the request they answer, and frames
      behind a request that ends the reading are lost. */
  function ReadActs(s: Loop, now: int, frames: seq<Result<DeviceMessage>>, handlings: seq<Handling>): seq<Act>
    decreases |frames|
  {
    if frames == [] then []
    else if !s.session.synchronized then
      [Read] + ReadActs(s.(session := s.session.(synchronized := true)), now, frames[1..], handlings)
    else if HandsOver(s.session, frames[0]) then
      var h := NextHandling(handlings);
      [Read] + (WriteActs(h.reports)
                + if h.verdict == Continues then ReadActs(s, now, frames[1..], Others(handlings))
                  else LossActs(|frames| - 1))
    else
      [Read] + ReadActs(Heard(s, now, frames[0]), now, frames[1..], handlings)
  }

  /** The requests that a read hands to the shutdown handler. */
  function Requests(s: Loop, now: int, frames: seq<Result<DeviceMessage>>, handlings: seq<Handling>): nat
    decreases |frames|
  {
    if frames == [] then 0
    else if !s.session.synchronized then
      Requests(s.(session := s.session.(synchronized := true)), now, frames[1..], handlings)
    else if HandsOver(s.session, frames[0]) then
      1 + if NextHandling(handlings).verdict == Continues then Requests(s, now, frames[1..], Others(handlings)) else 0
    else
      Requests(Heard(s, now, frames[0]), now, frames[1..], handlings)
  }

  function OpeningActs(s: Loop, i: Input): seq<Act> {
    if !s.session.open && i.opens.Some? then [Open(i.opens.value)] else []
  }

  /** The turn up to where an error would close the port. */
  function Talk(config: Config, interval: nat, s: Loop, i: Input): Phase {
    var w := WritePhases(config, interval, s, i);
    if w.ending == Fine then Preceded(w.written, ReadPhase(w.loop, i.now, i.frames, i.handlings)) else w
  }

  function TalkActs(config: Config, interval: nat, s: Loop, i: Input): seq<Act> {
    var w := WritePhases(config, interval, s, i);
    WriteActs(w.written) + if w.ending == Fine then ReadActs(w.loop, i.now, i.frames, i.handlings) else []
  }

  function TurnActs(config: Config, interval: nat, s: Loop, i: Input): seq<Act> {
    var ready := Ready(s, i);
    if !ready.session.open then []
    else
      OpeningActs(s, i) + (TalkActs(config, interval, ready, i)
                           + if OpenTurn(config, interval, ready, i).ending == Error then [Close] else [])
  }

  /** The frames a turn takes off the line, and the requests among them that it handles. */
  function TakenIn(config: Config, interval: nat, s: Loop, i: Input): nat {
    var ready := Ready(s, i);
    if ready.session.open && WritePhases(config, interval, ready, i).ending == Fine then |i.frames| else 0
  }

  function HandledIn(config: Config, interval: nat, s: Loop, i: Input): nat {
    var ready := Ready(s, i);
    if !ready.session.open then 0
    else
      var w := WritePhases(config, interval, ready, i);
      if w.ending == Fine then Requests(w.loop, i.now, i.frames, i.handlings) else 0
  }

  // ---------------------------------------------------------------- what the steps do

  /** All that the daemon does to the link: its session, what it writes, reads and hands over. */
  ghost predicate Did(l: World, e: World, session: Session, written: seq<HostMessage>, taken: nat, handled: nat)
  {
    && taken <= |l.toHost|
    && e.host == session && e.toStick == l.toStick + Stick.Framed(written) && e.toHost == l.toHost[taken..]
    && |e.handed| == |l.handed| + handled && e.handed[..|l.handed|] == l.handed
    && e.stick == l.stick && e.queue == l.queue && e.nextId == l.nextId && e.opening == l.opening && e.used == l.used
  }

  lemma DidThenDid(l: World, m: World, e: World, s: Session, t: Session,
                   first: seq<HostMessage>, second: seq<HostMessage>, a: nat, b: nat, h: nat, k: nat)
    requires Did(l, m, s, first, a, h) && Did(m, e, t, second, b, k)
    ensures Did(l, e, t, first + second, a + b, h + k)
  {
    assert Stick.Framed(first + second) == Stick.Framed(first) + Stick.Framed(second);
    assert e.handed[..|l.handed|] == e.handed[..|m.handed|][..|l.handed|];
  }

  lemma {:induction false} WritesRun(l: World, written: seq<HostMessage>)
    requires l.host.open && AllPermitted(l.host, written)
    ensures Exec(l, WriteActs(written)) == l.(toStick := l.toStick + Stick.Framed(written))
    decreases |written|
  {
    if written == [] {
      assert l.toStick + Stick.Framed(written) == l.toStick;
    } else {
      var init, last := written[..|written| - 1], written[|written| - 1];
      WritesRun(l, init);
      assert WriteActs(written) == WriteActs(init) + [WriteAct(last)];
      ExecAppend(l, WriteActs(init), WriteAct(last));
      assert Permitted(l.host, last);
      WriteRuns(Exec(l, WriteActs(init)), last);
      assert l.toStick + Stick.Framed(init) + [Stick.Message(last)] == l.toStick + Stick.Framed(written);
    }
  }

  lemma WriteRuns(l: World, m: HostMessage)
    requires l.host.open && Permitted(l.host, m)
    ensures Next(l, WriteAct(m)) == l.(toStick := l.toStick + [Stick.Message(m)])
  {
  }

  lemma ReportsRun(l: World, reports: seq<Report>)
    requires l.host.open && l.host.established
    ensures Exec(l, WriteActs(reports)) == l.(toStick := l.toStick + Stick.Framed(reports))
  {
    forall k | 0 <= k < |reports| ensures Permitted(l.host, reports[k]) {
      assert IsReport(reports[k]);
    }
    WritesRun(l, reports);
  }

  lemma {:induction false} LossesRun(l: World, n: nat)
    requires n <= |l.toHost|
    ensures Exec(l, LossActs(n)) == l.(toHost := l.toHost[n..])
  {
    if n > 0 {
      LossesRun(l, n - 1);
      assert LossActs(n) == LossActs(n - 1) + [LoseToHost(0)];
      ExecAppend(l, LossActs(n - 1), LoseToHost(0));
      var before := l.(toHost := l.toHost[n - 1..]);
      assert Without(before.toHost, 0) == l.toHost[n..];
    } else {
      assert l.toHost[0..] == l.toHost;
    }
  }

  /** Frames that the daemon's loop sees are those at the front of its line. */
  ghost predicate Sees(frames: seq<Result<DeviceMessage>>, l: World) {
    |frames| <= |l.toHost| && forall k :: 0 <= k < |frames| ==> frames[k] == Decoded(l.toHost[k])
  }

  lemma HandoverRuns(l: World)
    requires l.host.open && l.host.synchronized && l.toHost != [] && HandsOver(l.host, Decoded(l.toHost[0]))
    ensures Did(l, Next(l, Read), l.host, [], 1, 1)
  {
    assert l.toStick + Stick.Framed([]) == l.toStick;
  }

  /** A frame that is not handed over. */
  lemma FrameRuns(l: World, s: Loop, now: int)
    requires l.host == s.session && l.host.open && l.toHost != []
    requires s.session.synchronized ==> !HandsOver(s.session, Decoded(l.toHost[0]))
    ensures var t := if s.session.synchronized then Heard(s, now, Decoded(l.toHost[0]))
                     else s.(session := s.session.(synchronized := true));
      Did(l, Next(l, Read), t.session, [], 1, 0)
  {
    assert l.toStick + Stick.Framed([]) == l.toStick;
  }

  lemma {:induction false} ReadsRun(s: Loop, now: int, frames: seq<Result<DeviceMessage>>, handlings: seq<Handling>,
                                    l: World)
    requires l.host == s.session && l.host.open && Sees(frames, l)
    ensures var r := ReadPhase(s, now, frames, handlings);
      Did(l, Exec(l, ReadActs(s, now, frames, handlings)), r.loop.session, r.written, |frames|,
          Requests(s, now, frames, handlings))
    decreases |frames|, 1
  {
    if frames == [] {
      assert l.toStick + Stick.Framed([]) == l.toStick && l.toHost[0..] == l.toHost;
    } else if s.session.synchronized && HandsOver(s.session, frames[0]) {
      HandlingRuns(s, now, frames, handlings, l);
    } else {
      var t := if s.session.synchronized then Heard(s, now, frames[0])
               else s.(session := s.session.(synchronized := true));
      var m := Next(l, Read);
      FrameRuns(l, s, now);
      ReadsRun(t, now, frames[1..], handlings, m);
      var r := ReadPhase(t, now, frames[1..], handlings);
      OneStep(l, Read, ReadActs(t, now, frames[1..], handlings));
      DidThenDid(l, m, Exec(m, ReadActs(t, now, frames[1..], handlings)), t.session, r.loop.session,
                 [], r.written, 1, |frames| - 1, 0, Requests(t, now, frames[1..], handlings));
      assert [] + r.written == r.written;
    }
  }

  /** The request is read, the handler's reports are told, and the rest is read or lost. */
  lemma {:induction false} HandlingRuns(s: Loop, now: int, frames: seq<Result<DeviceMessage>>,
                                        handlings: seq<Handling>, l: World)
    requires l.host == s.session && l.host.open && Sees(frames, l) && frames != []
    requires s.session.synchronized && HandsOver(s.session, frames[0])
    ensures var r := ReadPhase(s, now, frames, handlings);
      Did(l, Exec(l, ReadActs(s, now, frames, handlings)), r.loop.session, r.written, |frames|,
          Requests(s, now, frames, handlings))
    decreases |frames|, 0
  {
    var h, m := NextHandling(handlings), Next(l, Read);
    HandoverRuns(l);
    var rest := if h.verdict == Continues then ReadActs(s, now, frames[1..], Others(handlings))
                else LossActs(|frames| - 1);
    OneStep(l, Read, WriteActs(h.reports) + rest);
    ExecConcat(m, WriteActs(h.reports), rest);
    ReportsRun(m, h.reports);
    var told := Exec(m, WriteActs(h.reports));
    assert m.toHost[0..] == m.toHost;
    assert Did(m, told, l.host, h.reports, 0, 0);
    var r, k := ReadPhase(s, now, frames[1..], Others(handlings)), Requests(s, now, frames[1..], Others(handlings));
    if h.verdict == Continues {
      ReadsRun(s, now, frames[1..], Others(handlings), told);
    } else {
      r, k := Phase(s, [], Fine), 0;
      LossesRun(told, |frames| - 1);
      assert told.toStick + Stick.Framed([]) == told.toStick;
    }
    DidThenDid(m, told, Exec(told, rest), l.host, r.loop.session, h.reports, r.written, 0, |frames| - 1, 0, k);
    DidThenDid(l, m, Exec(told, rest), l.host, r.loop.session, [], h.reports + r.written, 1, |frames| - 1, 1, k);
    assert [] + (h.reports + r.written) == h.reports + r.written && h.reports + [] == h.reports;
  }

  lemma TalkRuns(config: Config, interval: nat, s: Loop, i: Input, l: World)
    requires l.host == s.session && s.session.open && Sees(i.frames, l)
    ensures var t, w := Talk(config, interval, s, i), WritePhases(config, interval, s, i);
      Did(l, Exec(l, TalkActs(config, interval, s, i)), t.loop.session, t.written,
          if w.ending == Fine then |i.frames| else 0,
          if w.ending == Fine then Requests(w.loop, i.now, i.frames, i.handlings) else 0)
  {
    WritesArePermitted(config, interval, s, i);
    var w := WritePhases(config, interval, s, i);
    WritesRun(l, w.written);
    var m := Exec(l, WriteActs(w.written));
    assert l.toHost[0..] == l.toHost;
    assert Did(l, m, s.session, w.written, 0, 0);
    if w.ending == Fine {
      ReadsRun(w.loop, i.now, i.frames, i.handlings, m);
      var r, acts := ReadPhase(w.loop, i.now, i.frames, i.handlings), ReadActs(w.loop, i.now, i.frames, i.handlings);
      ExecConcat(l, WriteActs(w.written), acts);
      DidThenDid(l, m, Exec(m, acts), s.session, r.loop.session, w.written, r.written, 0, |i.frames|, 0,
                 Requests(w.loop, i.now, i.frames, i.handlings));
    } else {
      assert WriteActs(w.written) + [] == WriteActs(w.written);
    }
  }

  lemma TurnIsTalk(config: Config, interval: nat, s: Loop, i: Input)
    requires s.session.open
    ensures var t, talk := OpenTurn(config, interval, s, i), Talk(config, interval, s, i);
      t.written == talk.written && t.loop == if t.ending == Error then Closed(talk.loop) else talk.loop
    ensures var w := WritePhases(config, interval, s, i);
      && TakenIn(config, interval, s, i) == (if w.ending == Fine then |i.frames| else 0)
      && HandledIn(config, interval, s, i)
         == if w.ending == Fine then Requests(w.loop, i.now, i.frames, i.handlings) else 0
  {
  }

  lemma ClosingDid(l: World, m: World, session: Session, written: seq<HostMessage>, taken: nat, handled: nat)
    requires Did(l, m, session, written, taken, handled)
    ensures Did(l, Next(m, Close), session.(open := false), written, taken, handled)
  {
  }

  lemma OpenTurnRuns(config: Config, interval: nat, s: Loop, i: Input, l: World)
    requires l.host == s.session && s.session.open && Sees(i.frames, l)
    ensures var t := OpenTurn(config, interval, s, i);
      Did(l, Exec(l, TalkActs(config, interval, s, i) + if t.ending == Error then [Close] else []),
          t.loop.session, t.written, TakenIn(config, interval, s, i), HandledIn(config, interval, s, i))
  {
    TalkRuns(config, interval, s, i, l);
    TurnIsTalk(config, interval, s, i);
    var acts, talk := TalkActs(config, interval, s, i), Talk(config, interval, s, i);
    if OpenTurn(config, interval, s, i).ending == Error {
      ExecAppend(l, acts, Close);
      ClosingDid(l, Exec(l, acts), talk.loop.session, talk.written, TakenIn(config, interval, s, i),
                 HandledIn(config, interval, s, i));
    } else {
      assert acts + [] == acts;
    }
  }

  /** The two sides agree on the session, or the port is closed for both. */
  predicate Agrees(h: Session, s: Session) {
    h == s || (!h.open && !s.open)
  }

  /** The world behind the opening with which a turn may begin. */
  function Entered(l: World, s: Loop, i: Input): World {
    Exec(l, OpeningActs(s, i))
  }

  lemma OpeningRuns(s: Loop, i: Input, l: World)
    requires Agrees(l.host, s.session) && (!s.session.open && i.opens.Some? ==> i.opens.value !in l.used)
    ensures var e := Entered(l, s, i);
      && Agrees(e.host, Ready(s, i).session) && (Ready(s, i).session.open ==> e.host == Ready(s, i).session)
      && e.toHost == l.toHost && e.toStick == l.toStick && e.stick == l.stick && e.queue == l.queue
      && e.nextId == l.nextId && e.handed == l.handed
      && e.opening == l.opening + |OpeningActs(s, i)|
  {
    if OpeningActs(s, i) != [] {
      assert OpeningActs(s, i) == [Open(i.opens.value)] + [];
      OneStep(l, Open(i.opens.value), []);
    }
  }

  /** Every turn of this loop is this run of the link's steps, over the frames on its line. It
      reads those frames and hands over exactly the requests it handles, writes exactly its
      messages, and touches nothing else: the theorems about the link are about this loop. */
  lemma TurnIsARun(config: Config, interval: nat, s: Loop, i: Input, l: World)
    requires Agrees(l.host, s.session) && Sees(i.frames, l)
    requires !s.session.open && i.opens.Some? ==> i.opens.value !in l.used
    ensures var t, e := Turn(config, interval, s, i), Exec(l, TurnActs(config, interval, s, i));
      && Agrees(e.host, t.loop.session)
      && e.toStick == l.toStick + Stick.Framed(t.written)
      && e.toHost == l.toHost[TakenIn(config, interval, s, i)..]
      && |e.handed| == |l.handed| + HandledIn(config, interval, s, i) && e.handed[..|l.handed|] == l.handed
      && e.stick == l.stick && e.queue == l.queue && e.nextId == l.nextId
      && e.opening == l.opening + |OpeningActs(s, i)|
  {
    OpeningRuns(s, i, l);
    var ready, m := Ready(s, i), Entered(l, s, i);
    if ready.session.open {
      OpenTurnRuns(config, interval, ready, i, m);
      SameBehindOpening(config, interval, s, i);
      ExecConcat(l, OpeningActs(s, i), TalkActs(config, interval, ready, i)
                 + if OpenTurn(config, interval, ready, i).ending == Error then [Close] else []);
    } else {
      assert l.toStick + Stick.Framed([]) == l.toStick && l.toHost[0..] == l.toHost;
    }
  }

  lemma SameBehindOpening(config: Config, interval: nat, s: Loop, i: Input)
    requires Ready(s, i).session.open
    ensures Turn(config, interval, s, i) == OpenTurn(config, interval, Ready(s, i), i)
    ensures TakenIn(config, interval, s, i) == TakenIn(config, interval, Ready(s, i), i)
    ensures HandledIn(config, interval, s, i) == HandledIn(config, interval, Ready(s, i), i)
  {
  }
}
