/** The daemon's main loop: opening the port, the handshake, the two manifests and the
    snapshots it sends, and the frames it reads. */
module Daemon {
  import opened Common
  import opened Protocol
  import opened Link
  import opened Pagination

  const HELLO_PERIOD := 1_000

  /** The loop's variables. Times are milliseconds. */
  datatype Loop = Loop(
    session: Session, manifestPending: bool, display: DisplayConfig, network: NetworkConfig,
    configuredPages: nat, nextHello: int, nextUpdate: int)

  /** What the shutdown handler makes of a request: the process ends, goes on, or drops the port. */
  datatype Verdict = Exits | Continues | Breaks

  predicate IsReport(m: HostMessage) {
    m.ShutdownAccepted? || m.ShutdownProgress? || m.ShutdownFailed?
  }

  type Report = m: HostMessage | IsReport(m) witness ShutdownAccepted

  /** One request in the handler's hands: what it writes meanwhile, and what it makes of it. */
  datatype Handling = Handling(reports: seq<Report>, verdict: Verdict)

  const IGNORED := Handling([], Continues)

  /** What the outside world contributes to one turn; writes that are not attempted ignore theirs. */
  datatype Input = Input(
    now: int, opens: Option<Nonce>, latest: Option<HealthSnapshot>,
    helloOk: bool, displayOk: bool, networkOk: bool, newDisplayOk: bool, newNetworkOk: bool, snapshotOk: bool,
    frames: seq<Result<DeviceMessage>>, handlings: seq<Handling>, readFails: bool)

  datatype Ending = Fine | Error | Exit

  /** The loop after a phase, what was written during it, and how it ended. */
  datatype Phase = Phase(loop: Loop, written: seq<HostMessage>, ending: Ending)

  function Opened(s: Loop, now: int, nonce: Nonce): Loop {
    s.(session := Session(true, nonce, false, false), manifestPending := true, nextHello := now, nextUpdate := now)
  }

  function HelloPhase(s: Loop, i: Input): Phase
  {
    if s.session.established || i.now < s.nextHello then Phase(s, [], Fine)
    else if i.helloOk then
      Phase(s.(nextHello := i.now + HELLO_PERIOD), [Challenge(VERSION, s.session.nonce)], Fine)
    else Phase(s, [], Error)
  }

  function ManifestPhase(s: Loop, i: Input): Phase
  {
    if !s.session.established || !s.manifestPending then Phase(s, [], Fine)
    else if !i.displayOk then Phase(s, [], Error)
    else if !i.networkOk then Phase(s, [Display(s.display)], Error)
    else Phase(s.(manifestPending := false), [Display(s.display), Network(s.network)], Fine)
  }

  /** Replaces the manifests that differ, the LCD's before the network's. */
  function Replaced(s: Loop, i: Input, pages: nat, display: DisplayConfig, network: NetworkConfig): Phase
  {
    var displayWritten, networkWritten := display != s.display, network != s.network;
    var first := if displayWritten then [Display(display)] else [];
    var second := if networkWritten then [Network(network)] else [];
    if displayWritten && !i.newDisplayOk then Phase(s, [], Error)
    else if networkWritten && !i.newNetworkOk then Phase(s.(display := display), first, Error)
    else Phase(s.(display := display, network := network, configuredPages := pages), first + second, Fine)
  }

  /** Rewrites the manifests when the number of guest pages has changed. */
  function UpdatePhase(config: Config, s: Loop, i: Input, guests: nat): Phase
  {
    var pages, display, network := GuestPageCount(guests), DisplayFor(config, guests), NetworkFor(config, guests);
    if pages == s.configuredPages then Phase(s, [], Fine)
    else if display.None? || network.None? then Phase(s, [], Exit)
    else Replaced(s, i, pages, display.value, network.value)
  }

  function SnapshotPhase(config: Config, interval: nat, s: Loop, i: Input): Phase
  {
    if !s.session.established || i.now < s.nextUpdate || i.latest.None? then Phase(s, [], Fine)
    else
      var u := UpdatePhase(config, s, i, i.latest.value.guests);
      if u.ending != Fine then u
      else if i.snapshotOk then
        Phase(u.loop.(nextUpdate := i.now + interval), u.written + [Snapshot(i.latest.value)], Fine)
      else u.(ending := Error)
  }

  /** One decoded frame that is not handed to the shutdown handler. */
  function Heard(s: Loop, now: int, received: Result<DeviceMessage>): Loop
  {
    var s' := s.(session := OnFrame(s.session, received));
    match received
    case Ok(Hello(_, acknowledged)) =>
      if acknowledged == Some(s.session.nonce) then
        if s.session.established then s' else s'.(manifestPending := true, nextUpdate := now)
      else s'.(nextHello := now)
    case _ => s'
  }

  function NextHandling(handlings: seq<Handling>): Handling {
    if handlings == [] then IGNORED else handlings[0]
  }

  function Others(handlings: seq<Handling>): seq<Handling> {
    if handlings == [] then [] else handlings[1..]
  }

  function Preceded(written: seq<HostMessage>, p: Phase): Phase {
    p.(written := written + p.written)
  }

  lemma PrecededTwice(a: seq<HostMessage>, b: seq<HostMessage>, p: Phase)
    ensures Preceded(a, Preceded(b, p)) == Preceded(a + b, p)
  {
    assert a + (b + p.written) == (a + b) + p.written;
  }

  function ReadPhase(s: Loop, now: int, frames: seq<Result<DeviceMessage>>, handlings: seq<Handling>): Phase
    decreases |frames|
  {
    if frames == [] then Phase(s, [], Fine)
    else if !s.session.synchronized then
      ReadPhase(s.(session := s.session.(synchronized := true)), now, frames[1..], handlings)
    else if HandsOver(s.session, frames[0]) then
      var h := NextHandling(handlings);
      match h.verdict
      case Exits => Phase(s, h.reports, Exit)
      case Breaks => Phase(s, h.reports, Error)
      case Continues =>
        Preceded(h.reports, ReadPhase(s, now, frames[1..], Others(handlings)))
    else
      ReadPhase(Heard(s, now, frames[0]), now, frames[1..], handlings)
  }

  /** Two phases one after the other; an error or exit skips the second. */
  function WritePhases(config: Config, interval: nat, s: Loop, i: Input): Phase
  {
    var hello := HelloPhase(s, i);
    if hello.ending != Fine then hello
    else
      var manifest := ManifestPhase(hello.loop, i);
      if manifest.ending != Fine then manifest.(written := hello.written + manifest.written)
      else
        var snapshot := SnapshotPhase(config, interval, manifest.loop, i);
        snapshot.(written := hello.written + manifest.written + snapshot.written)
  }

  function Closed(s: Loop): Loop {
    s.(session := s.session.(open := false))
  }

  /** One turn with the port open. */
  function OpenTurn(config: Config, interval: nat, s: Loop, i: Input): Phase
  {
    var w := WritePhases(config, interval, s, i);
    if w.ending == Error then w.(loop := Closed(w.loop))
    else if w.ending == Exit then w
    else
      var r := ReadPhase(w.loop, i.now, i.frames, i.handlings);
      var written := w.written + r.written;
      if r.ending == Exit then Phase(r.loop, written, Exit)
      else if r.ending == Error || i.readFails then Phase(Closed(r.loop), written, Error)
      else Phase(r.loop, written, Fine)
  }

  /** One turn of the loop. */
  function Turn(config: Config, interval: nat, s: Loop, i: Input): Phase
  {
    if s.session.open then OpenTurn(config, interval, s, i)
    else if i.opens.None? then Phase(s, [], Fine)
    else OpenTurn(config, interval, Opened(s, i.now, i.opens.value), i)
  }

  // ---------------------------------------------------------------- the loop itself

  class MainLoop {
    const config: Config
    const interval: nat
    var session: Session
    var manifestPending: bool
    var displayConfig: DisplayConfig
    var networkConfig: NetworkConfig
    var configuredGuestPages: nat
    var nextHello: int
    var nextUpdate: int

    ghost function Abs(): Loop
      reads this
    {
      Loop(session, manifestPending, displayConfig, networkConfig, configuredGuestPages, nextHello, nextUpdate)
    }

    method SendHello(i: Input) returns (written: seq<HostMessage>, ending: Ending)
      modifies this
      ensures Phase(Abs(), written, ending) == HelloPhase(old(Abs()), i)
    {
      written, ending := [], Fine;
      if !session.established && i.now >= nextHello {
        if !i.helloOk {
          ending := Error;
        } else {
          written := [Challenge(VERSION, session.nonce)];
          nextHello := i.now + HELLO_PERIOD;
        }
      }
    }

    method SendManifests(i: Input) returns (written: seq<HostMessage>, ending: Ending)
      modifies this
      ensures Phase(Abs(), written, ending) == ManifestPhase(old(Abs()), i)
    {
      written, ending := [], Fine;
      if session.established && manifestPending {
        if !i.displayOk {
          ending := Error;
        } else {
          written := [Display(displayConfig)];
          if !i.networkOk {
            ending := Error;
          } else {
            written := written + [Network(networkConfig)];
            manifestPending := false;
          }
        }
      }
    }

    method UpdateManifests(i: Input, guests: nat) returns (written: seq<HostMessage>, ending: Ending)
      modifies this
      ensures Phase(Abs(), written, ending) == UpdatePhase(config, old(Abs()), i, guests)
    {
      written, ending := [], Fine;
      var pages := GuestPageCount(guests);
      if pages != configuredGuestPages {
        var nextDisplay, nextNetwork := DisplayFor(config, guests), NetworkFor(config, guests);
        if nextDisplay.None? || nextNetwork.None? {
          return [], Exit;
        }
        if nextDisplay.value != displayConfig {
          if !i.newDisplayOk {
            ending := Error;
          } else {
            written := [Display(nextDisplay.value)];
            displayConfig := nextDisplay.value;
          }
        }
        if ending == Fine && nextNetwork.value != networkConfig {
          if !i.newNetworkOk {
            ending := Error;
          } else {
            written := written + [Network(nextNetwork.value)];
            networkConfig := nextNetwork.value;
          }
        }
        if ending == Fine {
          configuredGuestPages := pages;
        }
      }
    }

    method SendSnapshot(i: Input) returns (written: seq<HostMessage>, ending: Ending)
      modifies this
      ensures Phase(Abs(), written, ending) == SnapshotPhase(config, interval, old(Abs()), i)
    {
      written, ending := [], Fine;
      if session.established && i.now >= nextUpdate && i.latest.Some? {
        written, ending := UpdateManifests(i, i.latest.value.guests);
        if ending == Fine {
          if i.snapshotOk {
            written := written + [Snapshot(i.latest.value)];
            nextUpdate := i.now + interval;
          } else {
            ending := Error;
          }
        }
      }
    }

    method ReadFrames(i: Input) returns (written: seq<HostMessage>, ending: Ending)
      modifies this
      ensures Phase(Abs(), written, ending) == ReadPhase(old(Abs()), i.now, i.frames, i.handlings)
    {
      written := [];
      var handlings := i.handlings;
      ghost var whole := ReadPhase(Abs(), i.now, i.frames, i.handlings);
      assert i.frames[0..] == i.frames;
      for k := 0 to |i.frames|
        invariant Preceded(written, ReadPhase(Abs(), i.now, i.frames[k..], handlings)) == whole
      {
        var frame := i.frames[k];
        assert i.frames[k..][0] == frame && i.frames[k..][1..] == i.frames[k + 1..];
        if !session.synchronized {
          session := session.(synchronized := true);
        } else if session.established && frame == Ok(ShutdownRequested) {
          var handling := NextHandling(handlings);
          handlings := Others(handlings);
          PrecededTwice(written, handling.reports, ReadPhase(Abs(), i.now, i.frames[k + 1..], handlings));
          written := written + handling.reports;
          if handling.verdict == Exits {
            return written, Exit;
          }
          if handling.verdict == Breaks {
            return written, Error;
          }
        } else if frame.Ok? && frame.value.Hello? {
          if frame.value.acknowledgedSession == Some(session.nonce) {
            if !session.established {
              session := session.(established := true);
              manifestPending, nextUpdate := true, i.now;
            }
          } else {
            session := session.(established := false);
            nextHello := i.now;
          }
        }
      }
      return written, Fine;
    }

    method RunTurn(i: Input) returns (written: seq<HostMessage>, ending: Ending)
      modifies this
      ensures Phase(Abs(), written, ending) == Turn(config, interval, old(Abs()), i)
    {
      written, ending := [], Fine;
      if !session.open {
        if i.opens.None? {
          return;
        }
        session, manifestPending := Session(true, i.opens.value, false, false), true;
        nextHello, nextUpdate := i.now, i.now;
      }
      written, ending := SendHello(i);
      if ending == Fine {
        var manifests;
        manifests, ending := SendManifests(i);
        written := written + manifests;
      }
      if ending == Fine {
        var updates;
        updates, ending := SendSnapshot(i);
        written := written + updates;
      }
      if ending == Fine {
        var reports;
        reports, ending := ReadFrames(i);
        written := written + reports;
        if ending == Fine && i.readFails {
          ending := Error;
        }
      }
      if ending == Error {
        session := session.(open := false);
      }
    }
  }

  predicate Configured(config: Config) {
    DisplayFor(config, 0).Some? && NetworkFor(config, 0).Some?
  }

  /** A daemon that has just started. */
  function Fresh(config: Config, nonce: Nonce, now: int): Loop
    requires Configured(config)
  {
    Loop(Session(false, nonce, false, false), true, DisplayFor(config, 0).value, NetworkFor(config, 0).value,
         GuestPageCount(0), now, now)
  }

  /** The loop that this turn's writes start from. */
  function Ready(s: Loop, i: Input): Loop {
    if !s.session.open && i.opens.Some? then Opened(s, i.now, i.opens.value) else s
  }
}
