/** What the device keeps of the frames it reads, told from the frames alone: the last snapshot,
    the last manifest, the last report and when the host was last heard. */
module Reception {
  import opened Common
  import opened Protocol
  import opened Stick

  // ---------------------------------------------------------------- what is heard in a session

  predicate IsChallenge(frame: HostFrame) {
    frame.Message? && frame.message.Challenge?
  }

  ghost predicate Challenged(frames: seq<HostFrame>) {
    exists k :: 0 <= k < |frames| && IsChallenge(frames[k])
  }

  /** The frame brings session data: a message that is no challenge. */
  predicate IsData(frame: HostFrame) {
    frame.Message? && !frame.message.Challenge?
  }

  /** The k-th of these frames is data that is heard: there was a session before, or there is a
      challenge ahead of it. */
  ghost predicate HeardAt(had: bool, frames: seq<HostFrame>, k: nat) {
    k < |frames| && IsData(frames[k]) && (had || Challenged(frames[..k]))
  }

  /** The last frame that is heard and has this property, or none. */
  ghost predicate LastHeard(had: bool, frames: seq<HostFrame>, k: nat, wanted: HostMessage -> bool)
  {
    && HeardAt(had, frames, k) && wanted(frames[k].message)
    && forall n :: k < n < |frames| && HeardAt(had, frames, n) ==> !wanted(frames[n].message)
  }

  ghost predicate NoneHeard(had: bool, frames: seq<HostFrame>, wanted: HostMessage -> bool) {
    forall n :: 0 <= n < |frames| && HeardAt(had, frames, n) ==> !wanted(frames[n].message)
  }

  const IS_SNAPSHOT: HostMessage -> bool := (m: HostMessage) => m.Snapshot?
  const IS_DISPLAY: HostMessage -> bool := (m: HostMessage) => m.Display?
  const IS_REPORT: HostMessage -> bool :=
    (m: HostMessage) => m.ShutdownAccepted? || m.ShutdownProgress? || m.ShutdownFailed?

  /** Nothing of interest was heard, or this was heard last. */
  ghost function Latest(had: bool, frames: seq<HostFrame>, wanted: HostMessage -> bool): Option<HostMessage>
  {
    if frames == [] then None
    else
      var init, last := frames[..|frames| - 1], frames[|frames| - 1];
      if IsData(last) && (had || Challenged(init)) && wanted(last.message) then Some(last.message)
      else Latest(had, init, wanted)
  }

  /** That is the last frame heard with this property. */
  lemma {:induction false} LatestIsLast(had: bool, frames: seq<HostFrame>, wanted: HostMessage -> bool) returns (k: nat)
    ensures match Latest(had, frames, wanted)
            case None => NoneHeard(had, frames, wanted)
            case Some(m) => LastHeard(had, frames, k, wanted) && frames[k] == Message(m)
  {
    k := 0;
    if frames != [] {
      var n := |frames| - 1;
      k := LatestIsLast(had, frames[..n], wanted);
      if HeardAt(had, frames, n) && wanted(frames[n].message) {
        k := n;
      } else {
        HeardInPrefix(had, frames, n);
      }
    }
  }

  lemma HeardInPrefix(had: bool, frames: seq<HostFrame>, n: nat)
    requires n <= |frames|
    ensures forall m :: 0 <= m < n ==> (HeardAt(had, frames, m) <==> HeardAt(had, frames[..n], m))
  {
    assert forall m :: 0 <= m < n ==> frames[..n][..m] == frames[..m];
  }

  // ---------------------------------------------------------------- one inbox

  lemma ChallengedOneMore(frames: seq<HostFrame>)
    requires frames != []
    ensures Challenged(frames) <==> Challenged(frames[..|frames| - 1]) || IsChallenge(frames[|frames| - 1])
  {
    var init := frames[..|frames| - 1];
    if Challenged(init) {
      var k :| 0 <= k < |init| && IsChallenge(init[k]);
      assert IsChallenge(frames[k]);
    }
    if Challenged(frames) && !IsChallenge(frames[|frames| - 1]) {
      var k :| 0 <= k < |frames| && IsChallenge(frames[k]);
      assert IsChallenge(init[k]);
    }
  }

  lemma {:induction false} SessionWhenChallenged(s: State, now: int, inbox: seq<HostFrame>)
    ensures ReceiveAll(s, now, inbox).state.session.Some? <==> s.session.Some? || Challenged(inbox)
    decreases |inbox|
  {
    if inbox != [] {
      SessionWhenChallenged(s, now, inbox[..|inbox| - 1]);
      ChallengedOneMore(inbox);
    }
  }

  /** What is kept when this was the latest of its kind. */
  function KeptSnapshot(latest: Option<HostMessage>, before: Option<HealthSnapshot>): Option<HealthSnapshot> {
    match latest
    case Some(Snapshot(snapshot)) => Some(snapshot)
    case _ => before
  }

  function KeptDisplay(latest: Option<HostMessage>, before: DisplayConfig): DisplayConfig {
    match latest
    case Some(Display(display)) => display
    case _ => before
  }

  lemma FrameKeeps(s: State, now: int, frame: HostFrame)
    ensures var r, heard := Receive(s, now, frame).state, IsData(frame) && s.session.Some?;
      && r.snapshot == (if heard then KeptSnapshot(Some(frame.message), s.snapshot) else s.snapshot)
      && r.display == (if heard then KeptDisplay(Some(frame.message), s.display) else s.display)
  {
  }

  /** Within one inbox: the snapshot kept is the last one heard, and the LCD manifest the last one
      heard; without one of them, what was kept before. */
  lemma {:induction false} InboxKeepsTheLatest(s: State, now: int, inbox: seq<HostFrame>)
    ensures var r, had := ReceiveAll(s, now, inbox).state, s.session.Some?;
      && r.snapshot == KeptSnapshot(Latest(had, inbox, IS_SNAPSHOT), s.snapshot)
      && r.display == KeptDisplay(Latest(had, inbox, IS_DISPLAY), s.display)
    decreases |inbox|
  {
    if inbox != [] {
      var init, last := inbox[..|inbox| - 1], inbox[|inbox| - 1];
      InboxKeepsTheLatest(s, now, init);
      SessionWhenChallenged(s, now, init);
      FrameKeeps(ReceiveAll(s, now, init).state, now, last);
    }
  }

  // ---------------------------------------------------------------- whole runs

  /** The latest of its kind that was heard in a run: in the last turn that heard one. */
  ghost function LatestInRun(s: State, inputs: seq<Input>, wanted: HostMessage -> bool): Option<HostMessage>
    decreases |inputs|
  {
    if inputs == [] then None
    else
      var init, i := inputs[..|inputs| - 1], inputs[|inputs| - 1];
      var latest := Latest(Turns(s, init).session.Some?, i.inbox, wanted);
      if latest.Some? then latest else LatestInRun(s, init, wanted)
  }

  /** The rest of a turn leaves snapshot and manifest alone. */
  lemma RestKeeps(r: State, i: Input)
    ensures var t := ShutdownTimers(Press(Age(r, i.now), i.now, i.action, i.held).state, i.now, i.usb);
      t.snapshot == r.snapshot && t.display == r.display
  {
    var a := Age(r, i.now);
    PressTouchesOnlyThePages(a, i.now, i.action, i.held);
    TimersTouchOnlyTheShutdownScreen(Press(a, i.now, i.action, i.held).state, i.now, i.usb);
  }

  lemma PressTouchesOnlyThePages(s: State, now: int, action: Option<ButtonAction>, held: Option<int>)
    ensures var p := Press(s, now, action, held).state;
      p == s.(page := p.page, lastClick := p.lastClick, showAbout := p.showAbout, animating := p.animating)
  {
  }

  lemma TurnKeepsTheLatest(s: State, i: Input)
    ensures var t, had := Turn(s, i).state, s.session.Some?;
      && t.snapshot == KeptSnapshot(Latest(had, i.inbox, IS_SNAPSHOT), s.snapshot)
      && t.display == KeptDisplay(Latest(had, i.inbox, IS_DISPLAY), s.display)
  {
    var greeted := HelloTick(s, i.now).state;
    InboxKeepsTheLatest(greeted, i.now, i.inbox);
    RestKeeps(ReceiveAll(greeted, i.now, i.inbox).state, i);
  }

  /** Over every run of the device's loop: it keeps the last snapshot and the last LCD manifest that
      it heard in a session, whatever else has arrived and happened since. */
  lemma {:induction false} RunKeepsTheLatest(s: State, inputs: seq<Input>)
    ensures var end := Turns(s, inputs);
      && end.snapshot == KeptSnapshot(LatestInRun(s, inputs, IS_SNAPSHOT), s.snapshot)
      && end.display == KeptDisplay(LatestInRun(s, inputs, IS_DISPLAY), s.display)
    decreases |inputs|
  {
    if inputs != [] {
      RunKeepsTheLatest(s, inputs[..|inputs| - 1]);
      var before, i := Turns(s, inputs[..|inputs| - 1]), inputs[|inputs| - 1];
      TurnKeepsTheLatest(before, i);
      LatestIsWanted(before.session.Some?, i.inbox, IS_SNAPSHOT);
      LatestIsWanted(before.session.Some?, i.inbox, IS_DISPLAY);
    }
  }

  lemma {:induction false} LatestIsWanted(had: bool, frames: seq<HostFrame>, wanted: HostMessage -> bool)
    ensures var latest := Latest(had, frames, wanted); latest.Some? ==> wanted(latest.value)
  {
    if frames != [] {
      LatestIsWanted(had, frames[..|frames| - 1], wanted);
    }
  }

  // ---------------------------------------------------------------- the rest of the state

  /** What the screen shows of a report. */
  function Screen(report: HostMessage, before: ShutdownDisplay): ShutdownDisplay {
    match report
    case ShutdownAccepted => Accepted
    case ShutdownProgress(PreparingGuests, _, _) => Accepted
    case ShutdownProgress(StoppingGuests, total, remaining) => GuestsLeft(total, remaining)
    case ShutdownProgress(GuestsStopped, _, _) => AllStopped
    case ShutdownProgress(PoweringOff, _, remaining) => HostPoweroff(0, remaining)
    case ShutdownFailed(remaining) => Failed(remaining)
    case _ => before
  }

  const IS_PROGRESS: HostMessage -> bool := (m: HostMessage) => m.ShutdownAccepted? || m.ShutdownProgress?
  const IS_POWEROFF: HostMessage -> bool := (m: HostMessage) => m.ShutdownProgress? && m.phase == PoweringOff

  /** When the host was last heard: a challenge makes it forget; a snapshot and a report of progress
      that are heard count, a failure does not. */
  ghost function LastUpdateAfter(had: bool, before: Option<int>, now: int, frames: seq<HostFrame>): Option<int>
  {
    if frames == [] then before
    else
      var init, last := frames[..|frames| - 1], frames[|frames| - 1];
      if IsChallenge(last) then None
      else if IsData(last) && (had || Challenged(init)) && (IS_SNAPSHOT(last.message) || IS_PROGRESS(last.message))
      then Some(now)
      else LastUpdateAfter(had, before, now, init)
  }

  /** The mode is that of the last frame that decides it. */
  ghost function ModeAfter(had: bool, before: Mode, frames: seq<HostFrame>): Mode
  {
    if frames == [] then before
    else
      var init, last := frames[..|frames| - 1], frames[|frames| - 1];
      if last.ForeignVersion? then Incompatible
      else if IsChallenge(last) then Waiting
      else if IsData(last) && (had || Challenged(init)) && IS_SNAPSHOT(last.message) then Connected
      else if IsData(last) && (had || Challenged(init)) && IS_REPORT(last.message) then ShuttingDown
      else ModeAfter(had, before, init)
  }

  /** The session is that of the last challenge. */
  ghost function SessionAfter(before: Option<Nonce>, frames: seq<HostFrame>): Option<Nonce>
  {
    if frames == [] then before
    else if IsChallenge(frames[|frames| - 1]) then Some(frames[|frames| - 1].message.session)
    else SessionAfter(before, frames[..|frames| - 1])
  }

  /** The page stays if the manifest has it; otherwise it is counted around. */
  function PageIn(display: DisplayConfig, page: nat): nat {
    var count := if display.pages == [] then 1 else |display.pages|;
    if page < count then page else page % count
  }

  /** The page behind all manifests that are heard. */
  ghost function PageAfter(had: bool, before: nat, frames: seq<HostFrame>): nat
  {
    if frames == [] then before
    else
      var init, last := frames[..|frames| - 1], frames[|frames| - 1];
      var page := PageAfter(had, before, init);
      if IsData(last) && (had || Challenged(init)) && last.message.Display? then PageIn(last.message.display, page)
      else page
  }

  lemma FrameTells(s: State, now: int, frame: HostFrame)
    ensures var r, heard := Receive(s, now, frame).state, IsData(frame) && s.session.Some?;
      && r.session == (if IsChallenge(frame) then Some(frame.message.session) else s.session)
      && r.lastUpdate == (if IsChallenge(frame) then None
                          else if heard && (IS_SNAPSHOT(frame.message) || IS_PROGRESS(frame.message)) then Some(now)
                          else s.lastUpdate)
      && r.mode == (if frame.ForeignVersion? then Incompatible
                    else if IsChallenge(frame) then Waiting
                    else if heard && IS_SNAPSHOT(frame.message) then Connected
                    else if heard && IS_REPORT(frame.message) then ShuttingDown
                    else s.mode)
  {
  }

  lemma FrameShows(s: State, now: int, frame: HostFrame)
    ensures var r, heard := Receive(s, now, frame).state, IsData(frame) && s.session.Some?;
      && r.shutdown == (if heard then Screen(frame.message, s.shutdown) else s.shutdown)
      && r.usbLostSince == (if heard && IS_PROGRESS(frame.message) then None else s.usbLostSince)
      && r.lastSpinner == (if heard && IS_POWEROFF(frame.message) then now else s.lastSpinner)
      && r.lastHello == s.lastHello && r.lastClick == s.lastClick && r.showAbout == s.showAbout
      && r.animating == s.animating
  {
  }

  lemma FramePages(s: State, now: int, frame: HostFrame)
    ensures var r, heard := Receive(s, now, frame).state, IsData(frame) && s.session.Some?;
      r.page == if heard && frame.message.Display? then PageIn(frame.message.display, s.page) else s.page
  {
    if frame.Message? && frame.message.Display? {
      var pages := frame.message.display.pages;
      SmallRemainder(s.page, if pages == [] then 1 else |pages|);
    }
  }

  lemma SmallRemainder(n: nat, d: nat)
    requires 0 < d
    ensures n < d ==> n % d == n
  {
  }

  /** Within one inbox, session, mode and the time the host was last heard. */
  lemma {:induction false} InboxTells(s: State, now: int, inbox: seq<HostFrame>)
    ensures var r, had := ReceiveAll(s, now, inbox).state, s.session.Some?;
      && r.session == SessionAfter(s.session, inbox)
      && r.lastUpdate == LastUpdateAfter(had, s.lastUpdate, now, inbox)
      && r.mode == ModeAfter(had, s.mode, inbox)
    decreases |inbox|
  {
    if inbox != [] {
      var init := inbox[..|inbox| - 1];
      InboxTells(s, now, init);
      SessionWhenChallenged(s, now, init);
      FrameTells(ReceiveAll(s, now, init).state, now, inbox[|inbox| - 1]);
    }
  }

  lemma {:induction false} InboxPages(s: State, now: int, inbox: seq<HostFrame>)
    ensures ReceiveAll(s, now, inbox).state.page == PageAfter(s.session.Some?, s.page, inbox)
    decreases |inbox|
  {
    if inbox != [] {
      var init := inbox[..|inbox| - 1];
      InboxPages(s, now, init);
      SessionWhenChallenged(s, now, init);
      FramePages(ReceiveAll(s, now, init).state, now, inbox[|inbox| - 1]);
    }
  }

  /** Within one inbox, the screens: the shutdown screen is that of the last report heard, and
      nothing of the button's is touched. */
  lemma {:induction false} InboxShows(s: State, now: int, inbox: seq<HostFrame>)
    ensures var r, had := ReceiveAll(s, now, inbox).state, s.session.Some?;
      var report := Latest(had, inbox, IS_REPORT);
      && r.shutdown == (if report.Some? then Screen(report.value, s.shutdown) else s.shutdown)
      && r.usbLostSince == (if Latest(had, inbox, IS_PROGRESS).Some? then None else s.usbLostSince)
      && r.lastSpinner == (if Latest(had, inbox, IS_POWEROFF).Some? then now else s.lastSpinner)
      && r.lastHello == s.lastHello && r.lastClick == s.lastClick && r.showAbout == s.showAbout
      && r.animating == s.animating
    decreases |inbox|
  {
    if inbox != [] {
      var init := inbox[..|inbox| - 1];
      InboxShows(s, now, init);
      SessionWhenChallenged(s, now, init);
      FrameShows(ReceiveAll(s, now, init).state, now, inbox[|inbox| - 1]);
    }
  }

  /** A report that is the last frame of its turn is on the screen when the turn ends. */
  lemma ReportIsOnScreen(s: State, i: Input)
    requires i.inbox != [] && HeardAt(s.session.Some?, i.inbox, |i.inbox| - 1)
    requires IS_REPORT(i.inbox[|i.inbox| - 1].message)
    ensures var t := Turn(s, i).state;
      t.mode == ShuttingDown && t.shutdown == Screen(i.inbox[|i.inbox| - 1].message, s.shutdown)
  {
    var greeted, last := HelloTick(s, i.now).state, i.inbox[|i.inbox| - 1];
    InboxTells(greeted, i.now, i.inbox);
    InboxShows(greeted, i.now, i.inbox);
    var r := ReceiveAll(greeted, i.now, i.inbox).state;
    assert r.mode == ShuttingDown && r.shutdown == Screen(last.message, s.shutdown);
    FreshReportStays(r, i, last.message);
  }

  lemma FreshReportStays(r: State, i: Input, report: HostMessage)
    requires r.mode == ShuttingDown && IS_REPORT(report) && r.shutdown == Screen(report, r.shutdown)
    requires IS_PROGRESS(report) ==> r.lastUpdate == Some(i.now) && r.usbLostSince == None
    requires IS_POWEROFF(report) ==> r.lastSpinner == i.now
    ensures var t := ShutdownTimers(Press(Age(r, i.now), i.now, i.action, i.held).state, i.now, i.usb);
      t.mode == ShuttingDown && t.shutdown == r.shutdown
  {
    PressTouchesOnlyThePages(r, i.now, i.action, i.held);
    var p := Press(r, i.now, i.action, i.held).state;
    var u := WatchUsb(p, i.now, i.usb);
    assert u.shutdown == p.shutdown && u.lastUpdate == p.lastUpdate && u.lastSpinner == p.lastSpinner;
    assert WatchReports(u, i.now) == u;
  }
}
