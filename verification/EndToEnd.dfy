/** From the button to the shutdown screen: the device loop, the link, the daemon loop, its
    shutdown handler and the device again, composed. */
module EndToEnd {
  import opened Common
  import opened Protocol
  import opened Link
  import opened Shutdown
  import Daemon
  import DaemonRefinement
  import opened Pagination
  import LongPresses
  import Manifests
  import Reception
  import Recovery
  import Sending
  import Stick
  import TurnRefinement

  // ---------------------------------------------------------------- the handler inside the daemon's turn

  /** A request in the hands of the shutdown handler: the host, and what becomes of the writes. */
  datatype Case = Case(host: Host, outcomes: seq<WriteOutcome>)
  {
    /** What arrives of its reports. */
    function Log(): seq<HostMessage> {
      Arrived(Reports(host), outcomes)
    }

    function Answer(): Reply {
      ReplyTo(host, outcomes)
    }
  }

  /** A handler that is still at work has not given the loop back: there is no verdict yet. */
  function VerdictOf(reply: Reply): Daemon.Verdict {
    match reply
    case Stop => Daemon.Exits
    case GoOn => Daemon.Continues
    case Broken => Daemon.Breaks
    case Busy => Daemon.Continues
  }

  lemma {:induction false} SentencesAreReports(log: seq<HostMessage>)
    requires StageAfter(log).Some?
    ensures forall k :: 0 <= k < |log| ==> Daemon.IsReport(log[k])
    decreases |log|
  {
    if log != [] {
      SentencesAreReports(log[..|log| - 1]);
    }
  }

  /** A request in the hands of the shutdown handler, as the daemon's turn sees it. */
  function HandlingOf(c: Case): (r: Daemon.Handling)
    ensures r.reports == c.Log()
  {
    WhatArrivesFits(c.host, c.outcomes);
    var log := c.Log();
    SentencesAreReports(log);
    Daemon.Handling(seq(|log|, k requires 0 <= k < |log| => log[k]), VerdictOf(c.Answer()))
  }

  function HandlingsOf(cases: seq<Case>): seq<Daemon.Handling> {
    seq(|cases|, k requires 0 <= k < |cases| => HandlingOf(cases[k]))
  }

  /** The reports of several requests, one behind the other. */
  function Logs(cases: seq<Case>): seq<HostMessage> {
    if cases == [] then [] else cases[0].Log() + Logs(cases[1..])
  }

  /** What a read comes to, if it hands the first `n` of these requests over. */
  ghost predicate ReadAs(r: Daemon.Phase, cases: seq<Case>, n: nat)
  {
    && n <= |cases| && r.written == Logs(cases[..n])
    && (forall k :: 0 <= k < n ==> StageAfter(cases[k].Log()).Some?)
    && (forall k :: 0 <= k < n - 1 ==> cases[k].Answer() == GoOn)
    && (r.ending == Daemon.Exit <==> n > 0 && cases[n - 1].Answer() == Stop)
    && (r.ending == Daemon.Error <==> n > 0 && cases[n - 1].Answer() == Reply.Broken)
    && (r.ending == Daemon.Exit ==> StageAfter(cases[n - 1].Log()) == Some(Off))
  }

  /** The read goes on behind a request that did not end it. */
  lemma ReadOnAs(r: Daemon.Phase, cases: seq<Case>, n: nat)
    requires cases != [] && cases[0].Answer() == GoOn && ReadAs(r, cases[1..], n)
    ensures ReadAs(Daemon.Preceded(cases[0].Log(), r), cases, n + 1)
  {
    WhatArrivesFits(cases[0].host, cases[0].outcomes);
    assert cases[..n + 1][1..] == cases[1..][..n];
    forall k | 0 <= k < n + 1 ensures StageAfter(cases[k].Log()).Some? {
      assert k > 0 ==> cases[k] == cases[1..][k - 1];
    }
    forall k | 0 <= k < n ensures cases[k].Answer() == GoOn {
      assert k > 0 ==> cases[k] == cases[1..][k - 1];
    }
  }

  /** A request that ends the read. */
  lemma ReadEndsAs(r: Daemon.Phase, cases: seq<Case>)
    requires cases != [] && cases[0].Answer() != GoOn && cases[0].Answer() != Busy && r.written == cases[0].Log()
    requires r.ending == if cases[0].Answer() == Stop then Daemon.Exit else Daemon.Error
    ensures ReadAs(r, cases, 1)
  {
    WhatArrivesFits(cases[0].host, cases[0].outcomes);
    assert cases[..1][1..] == [];
    assert cases[0].Log() + [] == cases[0].Log();
  }

  /** The first of these frames is a request that is handed over. */
  lemma HandingsOver(s: Daemon.Loop, now: int, frames: seq<Result<DeviceMessage>>, cases: seq<Case>)
    requires frames != [] && cases != [] && s.session.synchronized && HandsOver(s.session, frames[0])
    requires cases[0].Answer() != Busy
    ensures var handlings, c := HandlingsOf(cases), cases[0];
      var r, n := Daemon.ReadPhase(s, now, frames, handlings), DaemonRefinement.Requests(s, now, frames, handlings);
      if c.Answer() == GoOn then
        && r == Daemon.Preceded(c.Log(), Daemon.ReadPhase(s, now, frames[1..], HandlingsOf(cases[1..])))
        && n == 1 + DaemonRefinement.Requests(s, now, frames[1..], HandlingsOf(cases[1..]))
      else
        && r.written == c.Log() && n == 1
        && r.ending == if c.Answer() == Stop then Daemon.Exit else Daemon.Error
  {
    var handlings := HandlingsOf(cases);
    assert Daemon.NextHandling(handlings) == HandlingOf(cases[0]);
    assert Daemon.Others(handlings) == HandlingsOf(cases[1..]);
  }

  /** Whatever the daemon reads, with a host for each request: for the requests it hands over it
      writes a sentence of the report grammar each, in order; it ends exactly if the last of
      these shutdowns concluded with every report written, and then that report is PoweringOff. */
  lemma {:induction false} HandedRequests(s: Daemon.Loop, now: int, frames: seq<Result<DeviceMessage>>,
                                          cases: seq<Case>)
    requires |frames| <= |cases| && forall k :: 0 <= k < |cases| ==> cases[k].Answer() != Busy
    ensures ReadAs(Daemon.ReadPhase(s, now, frames, HandlingsOf(cases)), cases,
                   DaemonRefinement.Requests(s, now, frames, HandlingsOf(cases)))
    decreases |frames|
  {
    var handlings := HandlingsOf(cases);
    if frames == [] {
      assert cases[..0] == [];
    } else if !s.session.synchronized {
      HandedRequests(s.(session := s.session.(synchronized := true)), now, frames[1..], cases);
    } else if HandsOver(s.session, frames[0]) {
      HandingsOver(s, now, frames, cases);
      if cases[0].Answer() == GoOn {
        HandedRequests(s, now, frames[1..], cases[1..]);
        ReadOnAs(Daemon.ReadPhase(s, now, frames[1..], HandlingsOf(cases[1..])), cases,
                 DaemonRefinement.Requests(s, now, frames[1..], HandlingsOf(cases[1..])));
      } else {
        ReadEndsAs(Daemon.ReadPhase(s, now, frames, handlings), cases);
      }
    } else {
      HandedRequests(Daemon.Heard(s, now, frames[0]), now, frames[1..], cases);
    }
  }

  // ---------------------------------------------------------------- from the button to the screen

  function Told(log: seq<HostMessage>): seq<Act> {
    seq(|log|, k requires 0 <= k < |log| => Tell(log[k]))
  }

  /** The schedule: a long press, everything queued read by the daemon, the handler's reports,
      and the device reading everything. */
  function PressActs(l: World, now: int, held: Option<int>, later: int, log: seq<HostMessage>): seq<Act> {
    var p := Next(l, Push(now, Some(Stick.LongPress), held));
    [Push(now, Some(Stick.LongPress), held)] + Recovery.DrainActs(p) + Told(log) + TakeActs(|l.toStick| + |log|, later)
  }

  function TakeActs(n: nat, now: int): seq<Act> {
    seq(n, _ => Take(now))
  }

  lemma {:induction false} TakesHandNothingOver(l: World, now: int, k: nat)
    ensures var t := Recovery.Repeat(l, Take(now), k); t.handed == l.handed && t.host == l.host
  {
    if k > 0 {
      TakesHandNothingOver(l, now, k - 1);
      TakeHandsNothingOver(Recovery.Repeat(l, Take(now), k - 1), now);
    }
  }

  lemma TakeHandsNothingOver(l: World, now: int)
    ensures Next(l, Take(now)).handed == l.handed && Next(l, Take(now)).host == l.host
  {
  }

  lemma ToldRuns(l: World, log: seq<HostMessage>)
    requires l.host.open && l.host.established && StageAfter(log).Some?
    ensures Exec(l, Told(log)) == l.(toStick := l.toStick + Stick.Framed(log))
  {
    SentencesAreReports(log);
    assert Told(log) == DaemonRefinement.WriteActs(log);
    DaemonRefinement.WritesRun(l, log);
  }

  /** The press up to the handover of its request. */
  lemma PressIsRead(l: World, mark: nat, now: int, held: Option<int>) returns (r: World)
    requires Invariant(l, mark) && Recovery.Listening(l) && l.stick.mode == Stick.Connected
    requires LongPresses.Delivers(l)
    ensures var push := Push(now, Some(Stick.LongPress), held);
      r == Exec(l, [push] + Recovery.DrainActs(Next(l, push)))
    ensures r.host == l.host.(established := true) && r.toStick == l.toStick && r.stick.session == Some(l.host.nonce)
    ensures r.handed == l.handed
         + [Handover(Origin(Stick.Connected, Some(l.host.nonce), l.opening, l.nextId), l.host.nonce, l.opening)]
  {
    var push := Push(now, Some(Stick.LongPress), held);
    LongPresses.DeliversInSession(l, mark);
    r := LongPresses.PressIsDelivered(l, mark, now, held);
    OneStep(l, push, Recovery.DrainActs(Next(l, push)));
    Recovery.DrainActsRun(Next(l, push));
  }

  /** The device shows the last of these reports. */
  ghost predicate OnScreen(s: Stick.State, log: seq<HostMessage>)
    requires log != []
  {
    var last := log[|log| - 1];
    && Shows(s, RemainingIn(last))
    && (IsPoweringOff(last) ==> s.shutdown == Stick.HostPoweroff(0, RemainingIn(last)))
  }

  /** From every state of the invariant with the port open and synchronised, a connected device
      and a handshake that stands behind the frames ahead, none of them a request that is handed
      over: by this schedule and no other step the request of the press is handed over once,
      queued by the connected device in this session and opening; the handler's reports are
      those of any host over any failing writes; and the device then shows the last report that
      arrived. If the shutdown concluded, it shows the host powering off. */
  lemma PressReachesTheScreen(l: World, mark: nat, now: int, held: Option<int>, later: int, c: Case)
    returns (e: World)
    requires Invariant(l, mark) && Recovery.Listening(l) && l.stick.mode == Stick.Connected
    requires LongPresses.Delivers(l) && c.Log() != []
    ensures e == Exec(l, PressActs(l, now, held, later, c.Log()))
    ensures e.handed == l.handed
         + [Handover(Origin(Stick.Connected, Some(l.host.nonce), l.opening, l.nextId), l.host.nonce, l.opening)]
    ensures OnScreen(e.stick, c.Log())
    ensures c.Answer() == Stop ==> e.stick.shutdown.HostPoweroff?
  {
    var r := PressIsRead(l, mark, now, held);
    var push := Push(now, Some(Stick.LongPress), held);
    LogIsASentence(c);
    var n := |l.toStick| + |c.Log()|;
    e := AnswerReachesTheScreen(r, n, later, c.Log());
    var first, acts := [push] + Recovery.DrainActs(Next(l, push)), PressActs(l, now, held, later, c.Log());
    assert acts == first + Told(c.Log()) + TakeActs(n, later);
    ThreeRuns(l, first, Told(c.Log()), TakeActs(n, later), acts);
  }

  lemma LogIsASentence(c: Case)
    requires c.Log() != []
    ensures StageAfter(c.Log()).Some?
    ensures c.Answer() == Stop ==> IsPoweringOff(c.Log()[|c.Log()| - 1])
  {
    WhatArrivesFits(c.host, c.outcomes);
    if c.Answer() == Stop {
      OffIsPoweringOff(c.Log());
    }
  }

  predicate IsPoweringOff(m: HostMessage) {
    m.ShutdownProgress? && m.phase == PoweringOff
  }

  /** The handler's reports, told behind what was under way, reach the screen. */
  lemma AnswerReachesTheScreen(r: World, n: nat, later: int, log: seq<HostMessage>) returns (e: World)
    requires n == |r.toStick| + |log|
    requires r.host.open && r.host.established && r.stick.session.Some? && log != [] && StageAfter(log).Some?
    ensures e == Exec(Exec(r, Told(log)), TakeActs(n, later))
    ensures OnScreen(e.stick, log) && e.handed == r.handed
  {
    ToldRuns(r, log);
    e := ReportsReachTheScreen(Exec(r, Told(log)), n, later, r.toStick, log);
  }

  lemma ThreeRuns(l: World, a: seq<Act>, b: seq<Act>, c: seq<Act>, all: seq<Act>)
    requires all == a + b + c
    ensures Exec(l, all) == Exec(Exec(Exec(l, a), b), c)
  {
    ExecConcat(l, a, b);
    ExecConcat(l, a + b, c);
  }

  lemma OffIsPoweringOff(log: seq<HostMessage>)
    requires StageAfter(log) == Some(Off)
    ensures log != [] && IsPoweringOff(log[|log| - 1])
  {
  }

  /** Frames that were under way before the reports do not take the device's session away. */
  lemma {:induction false} SessionStays(s: Stick.State, now: int, frames: seq<Stick.HostFrame>)
    requires s.session.Some?
    ensures Stick.ReceiveAll(s, now, frames).state.session.Some?
    decreases |frames|
  {
    if frames != [] {
      SessionStays(s, now, frames[..|frames| - 1]);
    }
  }

  lemma {:induction false} ReceivedInTwo(s: Stick.State, now: int, a: seq<Stick.HostFrame>, b: seq<Stick.HostFrame>)
    ensures Stick.ReceiveAll(s, now, a + b).state
         == Stick.ReceiveAll(Stick.ReceiveAll(s, now, a).state, now, b).state
    decreases |b|
  {
    if b == [] {
      assert a + b == a;
    } else {
      assert (a + b)[..|a + b| - 1] == a + b[..|b| - 1];
      ReceivedInTwo(s, now, a, b[..|b| - 1]);
    }
  }

  lemma ReportsReachTheScreen(t: World, n: nat, later: int, earlier: seq<Stick.HostFrame>, log: seq<HostMessage>)
    returns (e: World)
    requires n == |earlier| + |log|
    requires t.stick.session.Some? && log != [] && StageAfter(log).Some?
    requires t.toStick == earlier + Stick.Framed(log)
    ensures e == Exec(t, TakeActs(n, later)) && OnScreen(e.stick, log) && e.handed == t.handed
  {
    e := AllTaken(t, n, later);
    SessionStays(t.stick, later, earlier);
    ReceivedInTwo(t.stick, later, earlier, Stick.Framed(log));
    LastReportIsOnScreen(Stick.ReceiveAll(t.stick, later, earlier).state, later, log);
  }

  lemma AllTaken(t: World, n: nat, later: int) returns (e: World)
    requires n == |t.toStick|
    ensures e == Exec(t, TakeActs(n, later))
    ensures e.stick == Stick.ReceiveAll(t.stick, later, t.toStick).state && e.handed == t.handed
  {
    e := Recovery.Repeat(t, Take(later), n);
    Recovery.RepeatIsARun(t, Take(later), n);
    TurnRefinement.TakesAreReceiving(t, later, n);
    TakesHandNothingOver(t, later, n);
    assert t.toStick[..n] == t.toStick;
  }

  lemma LastReportIsOnScreen(s: Stick.State, later: int, log: seq<HostMessage>)
    requires s.session.Some? && log != [] && StageAfter(log).Some?
    ensures OnScreen(Stick.ReceiveAll(s, later, Stick.Framed(log)).state, log)
  {
    var init, last, inbox := log[..|log| - 1], log[|log| - 1], Stick.Framed(log);
    assert log[0..] == log && init[0..] == init;
    assert inbox[..|inbox| - 1] == Stick.Framed(init) && inbox[|inbox| - 1] == Stick.Message(last);
    InboxShows(s, later, [], log);
    InboxShows(s, later, [], init);
  }

  // ---------------------------------------------------------------- from the measurement to the device

  lemma {:induction false} LatestOfWritten(written: seq<HostMessage>)
    ensures var latest := Reception.Latest(true, Stick.Framed(written), Reception.IS_SNAPSHOT);
      var sent := Sending.Snapshots(written);
      if sent == [] then latest == None else latest == Some(Snapshot(sent[|sent| - 1]))
    decreases |written|
  {
    if written != [] {
      var init := written[..|written| - 1];
      LatestOfWritten(init);
      assert Stick.Framed(written)[..|written| - 1] == Stick.Framed(init);
    }
  }

  /** Whenever the daemon sends a snapshot, a device in session whose turn receives what the daemon's
      turn has written keeps that measurement, incidents and all; and if it sends none, the device
      keeps the one it had. */
  lemma MeasurementReachesTheDevice(config: Config, interval: nat, s: Daemon.Loop, i: Daemon.Input,
                                    d: Stick.State, j: Stick.Input)
    requires d.session.Some? && j.inbox == Stick.Framed(Daemon.Turn(config, interval, s, i).written)
    ensures Stick.Turn(d, j).state.snapshot
         == if Manifests.SendsSnapshot(config, Daemon.Ready(s, i), i) then i.latest else d.snapshot
  {
    Sending.TurnSends(config, interval, s, i);
    LatestOfWritten(Daemon.Turn(config, interval, s, i).written);
    Reception.TurnKeepsTheLatest(d, j);
  }
}
