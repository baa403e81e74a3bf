/** The shutdown path of the daemon: accepting a request, the guest monitor, the reports it
    writes to the device, and what the device shows of them. */
module Shutdown {
  import opened Common
  import opened Protocol
  import Stick

  /** What becomes of one write: it arrives, it fails, or it arrives and the flush behind it fails. */
  datatype WriteOutcome = Done | Lost | FlushFailed

  /** The host while it shuts down: the first guest count, whether the power-off command was
      taken, and the later counts; a None is a query that failed. */
  datatype Host = Host(initial: Option<nat>, commandOk: bool, polls: seq<Option<nat>>)

  datatype Ending = Finished | Failed | Monitoring

  /** `Ok(stop)` or an error, or the monitor is still at work. */
  datatype Reply = Stop | GoOn | Broken | Busy

  // ---------------------------------------------------------------- what is reported when every write succeeds

  function Final(total: nat, remaining: nat): seq<HostMessage> {
    (if remaining == 0 then [ShutdownProgress(GuestsStopped, total, 0)] else [])
    + [ShutdownProgress(PoweringOff, total, remaining)]
  }

  /** The monitor's reports, and those behind it once it ends. */
  function Polling(total: nat, last: nat, polls: seq<Option<nat>>): seq<HostMessage>
    decreases |polls|
  {
    if polls == [] then []
    else if polls[0].None? then Final(total, last)
    else
      [ShutdownProgress(StoppingGuests, total, polls[0].value)]
      + if polls[0].value == 0 then Final(total, 0) else Polling(total, polls[0].value, polls[1..])
  }

  predicate Ends(polls: seq<Option<nat>>)
    decreases |polls|
  {
    polls != [] && (polls[0].None? || polls[0].value == 0 || Ends(polls[1..]))
  }

  /** Behind the first guest count. */
  function Outcome(h: Host): seq<HostMessage> {
    if !h.commandOk then [ShutdownFailed(if h.initial.Some? then h.initial.value else 0)]
    else if h.initial.None? then [ShutdownProgress(PoweringOff, 0, 0)]
    else Polling(h.initial.value, h.initial.value, h.polls)
  }

  function PoweroffReports(h: Host): seq<HostMessage> {
    [ShutdownProgress(PreparingGuests, 0, 0)]
    + (if h.initial.Some? then [ShutdownProgress(StoppingGuests, h.initial.value, h.initial.value)] else [])
    + Outcome(h)
  }

  function Reports(h: Host): seq<HostMessage> {
    [ShutdownAccepted] + PoweroffReports(h)
  }

  predicate Concludes(h: Host) {
    !h.commandOk || h.initial.None? || Ends(h.polls)
  }

  // ---------------------------------------------------------------- what arrives when writes may fail

  function NextOutcome(outcomes: seq<WriteOutcome>): WriteOutcome {
    if outcomes == [] then Done else outcomes[0]
  }

  function Behind(outcomes: seq<WriteOutcome>): seq<WriteOutcome> {
    if outcomes == [] then [] else outcomes[1..]
  }

  /** Writing stops at the first failure. */
  function Arrived(messages: seq<HostMessage>, outcomes: seq<WriteOutcome>): seq<HostMessage>
    decreases |messages|
  {
    if messages == [] then []
    else
      match NextOutcome(outcomes)
      case Done => [messages[0]] + Arrived(messages[1..], Behind(outcomes))
      case Lost => []
      case FlushFailed => [messages[0]]
  }

  predicate AllArrive(messages: seq<HostMessage>, outcomes: seq<WriteOutcome>)
    decreases |messages|
  {
    messages == [] || (NextOutcome(outcomes) == Done && AllArrive(messages[1..], Behind(outcomes)))
  }

  function After(messages: seq<HostMessage>, outcomes: seq<WriteOutcome>): seq<WriteOutcome>
    decreases |messages|
  {
    if messages == [] then outcomes else After(messages[1..], Behind(outcomes))
  }

  lemma {:induction false} ArrivedConcat(a: seq<HostMessage>, b: seq<HostMessage>, outcomes: seq<WriteOutcome>)
    ensures AllArrive(a + b, outcomes) <==> AllArrive(a, outcomes) && AllArrive(b, After(a, outcomes))
    ensures Arrived(a + b, outcomes)
         == Arrived(a, outcomes) + if AllArrive(a, outcomes) then Arrived(b, After(a, outcomes)) else []
    decreases |a|
  {
    if a == [] {
      assert a + b == b;
    } else {
      assert (a + b)[1..] == a[1..] + b;
      ArrivedConcat(a[1..], b, Behind(outcomes));
    }
  }

  lemma {:induction false} ArrivedIsPrefix(messages: seq<HostMessage>, outcomes: seq<WriteOutcome>)
    ensures Arrived(messages, outcomes) <= messages
    ensures AllArrive(messages, outcomes) ==> Arrived(messages, outcomes) == messages
    decreases |messages|
  {
    if messages != [] {
      ArrivedIsPrefix(messages[1..], Behind(outcomes));
    }
  }

  // ---------------------------------------------------------------- the code

  class Output {
    var written: seq<HostMessage>
    var outcomes: seq<WriteOutcome>

    method Write(m: HostMessage) returns (ok: bool)
      modifies this
      ensures ok <==> NextOutcome(old(outcomes)) == Done
      ensures written == old(written) + Arrived([m], old(outcomes)) && outcomes == Behind(old(outcomes))
    {
      var next := NextOutcome(outcomes);
      if next != Lost {
        written := written + [m];
      }
      outcomes := Behind(outcomes);
      ok := next == Done;
    }
  }

  /** The reports still to come, seen from any point of the run. */
  ghost predicate Ahead(wrote: seq<HostMessage>, outcomes: seq<WriteOutcome>, all: seq<HostMessage>,
                        rest: seq<HostMessage>,
                        now: seq<HostMessage>, left: seq<WriteOutcome>)
  {
    && now + Arrived(rest, left) == wrote + Arrived(all, outcomes)
    && (AllArrive(rest, left) <==> AllArrive(all, outcomes))
  }

  /** One more write: either it succeeds and the rest is still ahead, or everything that
      will ever arrive has arrived. */
  lemma WriteAdvances(wrote: seq<HostMessage>, outcomes: seq<WriteOutcome>, all: seq<HostMessage>,
                      report: HostMessage, rest: seq<HostMessage>, now: seq<HostMessage>, left: seq<WriteOutcome>)
    requires Ahead(wrote, outcomes, all, [report] + rest, now, left)
    ensures var wrote' := now + Arrived([report], left);
      && (NextOutcome(left) == Done ==> Ahead(wrote, outcomes, all, rest, wrote', Behind(left)))
      && (NextOutcome(left) != Done ==> wrote' == wrote + Arrived(all, outcomes) && !AllArrive(all, outcomes))
  {
    ArrivedConcat([report], rest, left);
    assert After([report], left) == Behind(left);
    var wrote' := now + Arrived([report], left);
    if NextOutcome(left) == Done {
      assert wrote' + Arrived(rest, Behind(left)) == now + (Arrived([report], left) + Arrived(rest, Behind(left)));
    } else {
      assert wrote' == now + (Arrived([report], left) + []);
    }
  }

  /** Polls until no guest is left or a query fails; None while it is still at work. */
  method MonitorGuests(total: nat, polls: seq<Option<nat>>, output: Output) returns (ok: bool, remaining: Option<nat>)
    modifies output
    ensures ok ==>
      && (remaining.Some? <==> Ends(polls))
      && Ahead(old(output.written), old(output.outcomes), Polling(total, total, polls),
               if remaining.Some? then Final(total, remaining.value) else [], output.written, output.outcomes)
    ensures !ok ==>
      && !AllArrive(Polling(total, total, polls), old(output.outcomes))
      && output.written == old(output.written) + Arrived(Polling(total, total, polls), old(output.outcomes))
  {
    ghost var wrote, outcomes, all := output.written, output.outcomes, Polling(total, total, polls);
    var last := total;
    assert polls[0..] == polls;
    for k := 0 to |polls|
      invariant Ahead(wrote, outcomes, all, Polling(total, last, polls[k..]), output.written, output.outcomes)
      invariant Ends(polls) <==> Ends(polls[k..])
    {
      assert polls[k..][0] == polls[k] && polls[k..][1..] == polls[k + 1..];
      if polls[k].None? {
        return true, Some(last);
      }
      last := polls[k].value;
      var report := ShutdownProgress(StoppingGuests, total, last);
      ghost var rest := if last == 0 then Final(total, 0) else Polling(total, last, polls[k + 1..]);
      WriteAdvances(wrote, outcomes, all, report, rest, output.written, output.outcomes);
      ok := output.Write(report);
      if !ok {
        return false, None;
      }
      if last == 0 {
        return true, Some(0);
      }
    }
    return true, None;
  }

  method ReportFinal(total: nat, remaining: nat, output: Output) returns (ok: bool)
    modifies output
    ensures ok <==> AllArrive(Final(total, remaining), old(output.outcomes))
    ensures output.written == old(output.written) + Arrived(Final(total, remaining), old(output.outcomes))
  {
    ghost var outcomes := output.outcomes;
    var off := ShutdownProgress(PoweringOff, total, remaining);
    if remaining == 0 {
      var stopped := ShutdownProgress(GuestsStopped, total, 0);
      ArrivedConcat([stopped], [off], outcomes);
      ok := output.Write(stopped);
      if !ok {
        return;
      }
    }
    assert [] + [off] == [off];
    ok := output.Write(off);
  }

  method Poweroff(host: Host, output: Output) returns (ending: Ending)
    modifies output
    ensures output.written == old(output.written) + Arrived(PoweroffReports(host), old(output.outcomes))
    ensures ending == if !AllArrive(PoweroffReports(host), old(output.outcomes)) || !host.commandOk then Failed
                      else if Concludes(host) then Finished else Monitoring
  {
    ghost var wrote, outcomes, all := output.written, output.outcomes, PoweroffReports(host);
    var preparing := ShutdownProgress(PreparingGuests, 0, 0);
    ghost var counted :=
      if host.initial.Some? then [ShutdownProgress(StoppingGuests, host.initial.value, host.initial.value)] else [];
    assert all == [preparing] + (counted + Outcome(host));
    WriteAdvances(wrote, outcomes, all, preparing, counted + Outcome(host), output.written, output.outcomes);
    var ok := output.Write(preparing);
    if !ok {
      return Failed;
    }
    if host.initial.Some? {
      WriteAdvances(wrote, outcomes, all, counted[0], Outcome(host), output.written, output.outcomes);
      ok := output.Write(ShutdownProgress(StoppingGuests, host.initial.value, host.initial.value));
      if !ok {
        return Failed;
      }
    } else {
      assert counted + Outcome(host) == Outcome(host);
    }
    ending := Command(host, output);
  }

  method Command(host: Host, output: Output) returns (ending: Ending)
    modifies output
    ensures output.written == old(output.written) + Arrived(Outcome(host), old(output.outcomes))
    ensures ending == if !AllArrive(Outcome(host), old(output.outcomes)) || !host.commandOk then Failed
                      else if Concludes(host) then Finished else Monitoring
  {
    if !host.commandOk {
      var reported := output.Write(ShutdownFailed(if host.initial.Some? then host.initial.value else 0));
      return Failed;
    }
    var ok;
    if host.initial.None? {
      ok := output.Write(ShutdownProgress(PoweringOff, 0, 0));
      return if ok then Finished else Failed;
    }
    var remaining;
    ok, remaining := MonitorGuests(host.initial.value, host.polls, output);
    if !ok {
      return Failed;
    }
    if remaining.None? {
      return Monitoring;
    }
    ok := ReportFinal(host.initial.value, remaining.value, output);
    return if ok then Finished else Failed;
  }

  /** How an allowed request is answered. */
  function ReplyTo(host: Host, outcomes: seq<WriteOutcome>): Reply {
    if NextOutcome(outcomes) != Done then Broken
    else if !AllArrive(Reports(host), outcomes) || !host.commandOk then GoOn
    else if Concludes(host) then Stop
    else Busy
  }

  /** The daemon's event handler. */
  class EventHandler {
    const allowShutdown: bool

    method Handle(message: DeviceMessage, host: Host, output: Output) returns (reply: Reply)
      modifies output
      ensures !(message.ShutdownRequested? && allowShutdown) ==> reply == GoOn && output.written == old(output.written)
      ensures message.ShutdownRequested? && allowShutdown ==>
        && output.written == old(output.written) + Arrived(Reports(host), old(output.outcomes))
        && reply == ReplyTo(host, old(output.outcomes))
    {
      if !message.ShutdownRequested? || !allowShutdown {
        return GoOn;
      }
      ghost var wrote, outcomes, rest := output.written, output.outcomes, PoweroffReports(host);
      WriteAdvances(wrote, outcomes, Reports(host), ShutdownAccepted, rest, wrote, outcomes);
      var ok := output.Write(ShutdownAccepted);
      if !ok {
        return Broken;
      }
      var ending := Poweroff(host, output);
      match ending
      case Finished => return Stop;
      case Failed => return GoOn;
      case Monitoring => return Busy;
    }
  }

  // ---------------------------------------------------------------- the language of the reports

  /** Where a report leaves the device's view of the shutdown. */
  datatype Stage =
    | Idle | Begun | Preparing
    | Counted(total: nat)
    | Polled(total: nat, remaining: nat)
    | Stopped(total: nat)
    | Off
    | GaveUp

  function Step(s: Stage, m: HostMessage): Option<Stage>
  {
    match m
    case ShutdownAccepted => if s.Idle? then Some(Begun) else None
    case ShutdownProgress(phase, total, remaining) => StepPhase(s, phase, total, remaining)
    case ShutdownFailed(remaining) =>
      if (s.Preparing? && remaining == 0) || (s.Counted? && remaining == s.total) then Some(GaveUp) else None
    case _ => None
  }

  function StepPhase(s: Stage, phase: ShutdownPhase, total: nat, remaining: nat): Option<Stage>
  {
    match phase
    case PreparingGuests => if s.Begun? && total == 0 && remaining == 0 then Some(Preparing) else None
    case StoppingGuests =>
      if s.Preparing? && total == remaining then Some(Counted(total))
      else if (s.Counted? || (s.Polled? && s.remaining > 0)) && total == s.total then Some(Polled(total, remaining))
      else None
    case GuestsStopped =>
      if remaining == 0 && ((s.Counted? && s.total == 0) || (s.Polled? && s.remaining == 0)) && total == s.total
      then Some(Stopped(total)) else None
    case PoweringOff =>
      if || (s.Preparing? && total == 0 && remaining == 0)
         || (s.Counted? && total == s.total && remaining == s.total && total > 0)
         || (s.Polled? && total == s.total && remaining == s.remaining && remaining > 0)
         || (s.Stopped? && total == s.total && remaining == 0)
      then Some(Off) else None
  }

  function StageAfter(log: seq<HostMessage>): Option<Stage>
  {
    if log == [] then Some(Idle)
    else
      var before := StageAfter(log[..|log| - 1]);
      if before.None? then None else Step(before.value, log[|log| - 1])
  }

  lemma Extends(log: seq<HostMessage>, m: HostMessage)
    ensures StageAfter(log + [m])
         == if StageAfter(log).None? then None else Step(StageAfter(log).value, m)
  {
    assert (log + [m])[..|log|] == log;
  }

  lemma FinalFits(log: seq<HostMessage>, total: nat, remaining: nat)
    requires (StageAfter(log) == Some(Counted(total)) && remaining == total)
          || StageAfter(log) == Some(Polled(total, remaining))
    ensures StageAfter(log + Final(total, remaining)) == Some(Off)
  {
    var off := ShutdownProgress(PoweringOff, total, remaining);
    if remaining == 0 {
      var stopped := ShutdownProgress(GuestsStopped, total, 0);
      Extends(log, stopped);
      Extends(log + [stopped], off);
      assert log + Final(total, remaining) == log + [stopped] + [off];
    } else {
      Extends(log, off);
      assert Final(total, remaining) == [off];
    }
  }

  lemma {:induction false} PollingFits(log: seq<HostMessage>, total: nat, last: nat, polls: seq<Option<nat>>)
    requires (StageAfter(log) == Some(Counted(total)) && last == total)
          || (StageAfter(log) == Some(Polled(total, last)) && last > 0)
    ensures var end := StageAfter(log + Polling(total, last, polls));
      end.Some? && (end.value.Off? <==> Ends(polls)) && !end.value.GaveUp?
    decreases |polls|
  {
    if polls == [] {
      assert log + [] == log;
    } else if polls[0].None? {
      FinalFits(log, total, last);
    } else {
      var remaining := polls[0].value;
      var report := ShutdownProgress(StoppingGuests, total, remaining);
      Extends(log, report);
      if remaining == 0 {
        FinalFits(log + [report], total, 0);
        Regroup(log, [report], Final(total, 0));
      } else {
        PollingFits(log + [report], total, remaining, polls[1..]);
        Regroup(log, [report], Polling(total, remaining, polls[1..]));
      }
    }
  }

  /** Whatever the host does, the reports follow the grammar of StageAfter. They reach
      PoweringOff exactly if the command was taken and the monitor ended, and a failure
      exactly if the command was refused. */
  lemma ReportsFit(h: Host)
    ensures var end := StageAfter(Reports(h));
      && end.Some?
      && (end.value.Off? <==> h.commandOk && Concludes(h))
      && (end.value.GaveUp? <==> !h.commandOk)
  {
    var preparing := ShutdownProgress(PreparingGuests, 0, 0);
    Extends([], ShutdownAccepted);
    assert [] + [ShutdownAccepted] == [ShutdownAccepted];
    Extends([ShutdownAccepted], preparing);
    var log := [ShutdownAccepted] + [preparing];
    if h.initial.Some? {
      var counted := ShutdownProgress(StoppingGuests, h.initial.value, h.initial.value);
      Extends(log, counted);
      log := log + [counted];
    }
    assert Reports(h) == log + Outcome(h);
    if !h.commandOk || h.initial.None? {
      Extends(log, Outcome(h)[0]);
      assert Outcome(h) == [Outcome(h)[0]];
    } else {
      PollingFits(log, h.initial.value, h.initial.value, h.polls);
    }
  }

  lemma {:induction false} PrefixFits(log: seq<HostMessage>, part: seq<HostMessage>)
    requires StageAfter(log).Some? && part <= log
    ensures StageAfter(part).Some?
    decreases |log|
  {
    if part != log {
      assert part <= log[..|log| - 1];
      PrefixFits(log[..|log| - 1], part);
    }
  }

  /** What arrives follows the grammar whatever fails, on the host or on the line. The process
      stops only behind a PoweringOff report; without a failed write, exactly behind one. */
  lemma WhatArrivesFits(h: Host, outcomes: seq<WriteOutcome>)
    ensures var end := StageAfter(Arrived(Reports(h), outcomes));
      var stops := AllArrive(Reports(h), outcomes) && h.commandOk && Concludes(h);
      && end.Some?
      && (stops ==> end.value.Off?)
      && (AllArrive(Reports(h), outcomes) ==> (stops <==> end.value.Off?) && (end.value.GaveUp? <==> !h.commandOk))
  {
    ReportsFit(h);
    ArrivedIsPrefix(Reports(h), outcomes);
    PrefixFits(Reports(h), Arrived(Reports(h), outcomes));
  }

  // ---------------------------------------------------------------- every sentence of the language happens

  function LastCount(last: nat, polls: seq<Option<nat>>): nat
    decreases |polls|
  {
    if polls == [] then last else LastCount(if polls[0].Some? then polls[0].value else last, polls[1..])
  }

  lemma {:induction false} OneMorePoll(total: nat, last: nat, polls: seq<Option<nat>>, x: Option<nat>)
    requires !Ends(polls)
    ensures Polling(total, last, polls + [x])
         == Polling(total, last, polls) + Polling(total, LastCount(last, polls), [x])
    ensures Ends(polls + [x]) <==> x.None? || x.value == 0
    ensures x.Some? ==> LastCount(last, polls + [x]) == x.value
    decreases |polls|
  {
    if polls == [] {
      assert polls + [x] == [x];
      assert Polling(total, last, []) + Polling(total, last, [x]) == Polling(total, last, [x]);
    } else {
      assert (polls + [x])[1..] == polls[1..] + [x];
      OneMorePoll(total, polls[0].value, polls[1..], x);
    }
  }

  /** The host is one that has written `log` and nothing it need not have written. */
  ghost predicate Realizes(h: Host, log: seq<HostMessage>, s: Stage)
  {
    match s
    case Idle => log == []
    case Begun => log == [ShutdownAccepted]
    case Preparing => log == [ShutdownAccepted, ShutdownProgress(PreparingGuests, 0, 0)]
    case Counted(total) => h == Host(Some(total), true, []) && Reports(h) == log
    case Polled(total, remaining) =>
      && h.initial == Some(total) && h.commandOk
      && (remaining == 0 ==> Reports(h) == log + Final(total, 0))
      && (remaining > 0 ==> Reports(h) == log && !Ends(h.polls) && LastCount(total, h.polls) == remaining)
    case Stopped(total) => Reports(h) == log + [ShutdownProgress(PoweringOff, total, 0)]
    case Off => Reports(h) == log
    case GaveUp => Reports(h) == log
  }

  function Front(total: nat): seq<HostMessage> {
    [ShutdownAccepted, ShutdownProgress(PreparingGuests, 0, 0), ShutdownProgress(StoppingGuests, total, total)]
  }

  lemma ReportsOfCounted(h: Host)
    requires h.initial.Some?
    ensures Reports(h) == Front(h.initial.value) + Outcome(h)
    ensures h.commandOk ==> Outcome(h) == Polling(h.initial.value, h.initial.value, h.polls)
  {
  }

  lemma Regroup<T>(a: seq<T>, b: seq<T>, c: seq<T>)
    ensures a + (b + c) == (a + b) + c
  {
  }

  lemma PollRealizes(h: Host, log: seq<HostMessage>, total: nat, x: Option<nat>) returns (h': Host)
    requires h.initial == Some(total) && h.commandOk && Reports(h) == log && !Ends(h.polls)
    ensures h'.initial == Some(total) && h'.commandOk
    ensures Reports(h') == log + Polling(total, LastCount(total, h.polls), [x])
    ensures Ends(h'.polls) <==> x.None? || x.value == 0
    ensures x.Some? ==> LastCount(total, h'.polls) == x.value
  {
    h' := h.(polls := h.polls + [x]);
    OneMorePoll(total, total, h.polls, x);
    ReportsOfCounted(h);
    ReportsOfCounted(h');
    Regroup(Front(total), Polling(total, total, h.polls), Polling(total, LastCount(total, h.polls), [x]));
  }

  lemma PollingOne(total: nat, last: nat, x: Option<nat>)
    ensures x.None? ==> Polling(total, last, [x]) == Final(total, last)
    ensures x.Some? && x.value > 0 ==> Polling(total, last, [x]) == [ShutdownProgress(StoppingGuests, total, x.value)]
    ensures x == Some(0) ==> Polling(total, last, [x]) == [ShutdownProgress(StoppingGuests, total, 0)] + Final(total, 0)
  {
  }

  lemma CountedRealizes(h: Host, log: seq<HostMessage>, s: Stage, m: HostMessage) returns (h': Host)
    requires s.Counted? || (s.Polled? && s.remaining > 0)
    requires Realizes(h, log, s) && Step(s, m).Some? && !Step(s, m).value.GaveUp?
    ensures Realizes(h', log + [m], Step(s, m).value)
  {
    var t := Step(s, m).value;
    var x := if t.Polled? then Some(t.remaining) else None;
    var last := LastCount(s.total, h.polls);
    h' := PollRealizes(h, log, s.total, x);
    PollingOne(s.total, last, x);
    if t.Polled? {
      assert t.remaining == 0 ==> log + ([m] + Final(t.total, 0)) == log + [m] + Final(t.total, 0);
    } else if t.Stopped? {
      assert log + Final(s.total, 0) == log + [m] + [ShutdownProgress(PoweringOff, s.total, 0)];
    } else {
      assert Final(s.total, last) == [m];
    }
  }

  lemma PreparedRealizes(log: seq<HostMessage>, m: HostMessage) returns (h': Host)
    requires Realizes(Host(None, true, []), log, Preparing) && Step(Preparing, m).Some?
    ensures Realizes(h', log + [m], Step(Preparing, m).value)
  {
    var t := Step(Preparing, m).value;
    h' := if t.Counted? then Host(Some(t.total), true, []) else Host(None, t.Off?, []);
    assert log + [m] == [log[0], log[1], m];
  }

  lemma StepRealizes(h: Host, log: seq<HostMessage>, s: Stage, m: HostMessage) returns (h': Host)
    requires Realizes(h, log, s) && Step(s, m).Some?
    ensures Realizes(h', log + [m], Step(s, m).value)
  {
    h' := h;
    var t := Step(s, m).value;
    match s
    case Idle =>
    case Begun =>
    case Preparing => h' := PreparedRealizes(log, m);
    case Counted(total) =>
      if t.GaveUp? {
        h' := h.(commandOk := false);
        ReportsOfCounted(h);
        ReportsOfCounted(h');
      } else {
        h' := CountedRealizes(h, log, s, m);
      }
    case Polled(total, remaining) =>
      if remaining > 0 {
        h' := CountedRealizes(h, log, s, m);
      } else {
        assert log + [m] + [ShutdownProgress(PoweringOff, total, 0)] == log + Final(total, 0);
      }
    case Stopped(total) =>
    case Off =>
    case GaveUp =>
  }

  lemma {:induction false} SomeHostRealizes(log: seq<HostMessage>) returns (h: Host)
    requires StageAfter(log).Some?
    ensures Realizes(h, log, StageAfter(log).value)
    decreases |log|
  {
    if log == [] {
      h := Host(None, true, []);
    } else {
      var init, m := log[..|log| - 1], log[|log| - 1];
      var before := SomeHostRealizes(init);
      h := StepRealizes(before, init, StageAfter(init).value, m);
      assert init + [m] == log;
    }
  }

  lemma {:induction false} CutAt(messages: seq<HostMessage>, n: nat)
    requires n <= |messages|
    ensures Arrived(messages, seq(n, _ => Done) + [Lost]) == messages[..n]
    decreases n
  {
    var outcomes := seq(n, _ => Done) + [Lost];
    if n > 0 {
      assert outcomes[1..] == seq(n - 1, _ => Done) + [Lost];
      CutAt(messages[1..], n - 1);
    }
  }

  /** The grammar is exact: every sentence of it is what arrives from some host over some line. */
  lemma EverySentenceArrives(log: seq<HostMessage>) returns (h: Host, outcomes: seq<WriteOutcome>)
    requires StageAfter(log).Some?
    ensures Arrived(Reports(h), outcomes) == log
  {
    h := SomeHostRealizes(log);
    assert log <= Reports(h);
    outcomes := seq(|log|, _ => Done) + [Lost];
    CutAt(Reports(h), |log|);
  }

  // ---------------------------------------------------------------- what the language promises

  function RemainingIn(m: HostMessage): nat {
    match m
    case ShutdownProgress(_, _, remaining) => remaining
    case ShutdownFailed(remaining) => remaining
    case _ => 0
  }

  function Rank(m: HostMessage): nat {
    match m
    case ShutdownProgress(phase, _, _) =>
      (match phase case PreparingGuests => 1 case StoppingGuests => 2 case GuestsStopped => 3 case PoweringOff => 4)
    case ShutdownFailed(_) => 4
    case _ => 0
  }

  predicate Counts(m: HostMessage) {
    m.ShutdownProgress? && m.phase == StoppingGuests
  }

  /** A report `b` right behind a report `a`. */
  predicate Follows(a: HostMessage, b: HostMessage)
  {
    && (Rank(a) < Rank(b) || (Counts(a) && Counts(b)))
    && (Rank(a) >= 2 && b.ShutdownProgress? ==> b.guestsTotal == a.guestsTotal)
    && (Rank(b) == 3 ==> Counts(a) && RemainingIn(a) == 0)
    && (Rank(b) == 4 ==> RemainingIn(b) == RemainingIn(a))
  }

  ghost predicate Orderly(log: seq<HostMessage>)
  {
    && (log != [] ==> log[0] == ShutdownAccepted)
    && (forall k :: 0 < k < |log| ==> Follows(log[k - 1], log[k]))
    && (forall k :: 0 < k < |log| && IsZero(log[k - 1]) && Counts(log[k]) ==> k == 3 && log[2].guestsTotal == 0)
  }

  /** A count of no guests. */
  predicate IsZero(m: HostMessage) {
    Counts(m) && RemainingIn(m) == 0
  }

  /** The stage is told by the last report. */
  predicate Describes(s: Stage, m: HostMessage)
  {
    match s
    case Idle => false
    case Begun => m == ShutdownAccepted
    case Preparing => m == ShutdownProgress(PreparingGuests, 0, 0)
    case Counted(total) => m == ShutdownProgress(StoppingGuests, total, total)
    case Polled(total, remaining) => m == ShutdownProgress(StoppingGuests, total, remaining)
    case Stopped(total) => m == ShutdownProgress(GuestsStopped, total, 0)
    case Off => Rank(m) == 4
    case GaveUp => Rank(m) == 4
  }

  lemma StepFollows(s: Stage, a: HostMessage, m: HostMessage)
    requires Describes(s, a) && Step(s, m).Some?
    ensures Follows(a, m) && Describes(Step(s, m).value, m)
    ensures IsZero(a) && Counts(m) ==> s == Counted(0)
  {
  }

  /** The first guest count is the third report. */
  lemma {:induction false} FirstCountIsThird(log: seq<HostMessage>)
    requires StageAfter(log).Some?
    ensures match StageAfter(log).value
      case Idle => |log| == 0
      case Begun => |log| == 1
      case Preparing => |log| == 2
      case Counted(total) => |log| == 3 && log[2] == ShutdownProgress(StoppingGuests, total, total)
      case _ => true
    decreases |log|
  {
    if log != [] {
      FirstCountIsThird(log[..|log| - 1]);
    }
  }

  lemma ZeroFirstIsThird(log: seq<HostMessage>)
    requires StageAfter(log) == Some(Counted(0))
    ensures |log| == 3 && log[2].ShutdownProgress? && log[2].guestsTotal == 0
  {
    FirstCountIsThird(log);
  }

  /** Accepted comes first, phases never go back, the total stays, GuestsStopped stands only
      behind a count of zero, PoweringOff or a failure carries the last count and is last, and
      only a first count of zero is followed by another count. */
  lemma {:induction false} ReportsAreOrderly(log: seq<HostMessage>)
    requires StageAfter(log).Some?
    ensures Orderly(log)
    ensures log != [] ==> Describes(StageAfter(log).value, log[|log| - 1])
    decreases |log|
  {
    if log != [] {
      var init, m := log[..|log| - 1], log[|log| - 1];
      ReportsAreOrderly(init);
      if StageAfter(init) == Some(Counted(0)) {
        ZeroFirstIsThird(init);
      }
      if init != [] {
        OrderlyOneMore(init, StageAfter(init).value, m);
      }
      assert init + [m] == log;
    }
  }

  lemma OrderlyOneMore(log: seq<HostMessage>, s: Stage, m: HostMessage)
    requires log != [] && Orderly(log) && Describes(s, log[|log| - 1]) && Step(s, m).Some?
    requires s == Counted(0) ==> |log| == 3 && log[2].ShutdownProgress? && log[2].guestsTotal == 0
    ensures Orderly(log + [m]) && Describes(Step(s, m).value, m)
  {
    StepFollows(s, log[|log| - 1], m);
    var more := log + [m];
    assert forall k :: 0 <= k < |log| ==> more[k] == log[k];
    assert more[|log|] == m;
  }

  ghost predicate NoCountBehindZero(log: seq<HostMessage>) {
    forall k :: 0 < k < |log| && IsZero(log[k - 1]) ==> !Counts(log[k])
  }

  lemma FirstReports(h: Host)
    requires h.initial.Some?
    ensures |Reports(h)| >= 3 && Reports(h)[2] == ShutdownProgress(StoppingGuests, h.initial.value, h.initial.value)
    ensures |Reports(h)| > 3 && Counts(Reports(h)[3]) <==> h.commandOk && h.polls != [] && h.polls[0].Some?
  {
    ReportsOfCounted(h);
    var o := Outcome(h);
    assert o != [] ==> Reports(h)[3] == o[0];
  }

  /** A count of zero ends the monitor if and only if it is not the first count: behind a first
      count of zero a taken command is followed by one more query, and its count is reported. */
  lemma ZeroEndsTheMonitor(h: Host)
    ensures NoCountBehindZero(Reports(h))
       <==> !(h.commandOk && h.initial == Some(0) && h.polls != [] && h.polls[0].Some?)
  {
    ReportsFit(h);
    ReportsAreOrderly(Reports(h));
    if h.initial.Some? {
      FirstReports(h);
    }
  }

  /** Such a host: no guests at first, and then this many. */
  lemma GuestsBehindZero(n: nat)
    ensures var reports := Reports(Host(Some(0), true, [Some(n)]));
      && |reports| > 3 && reports[2] == ShutdownProgress(StoppingGuests, 0, 0)
      && reports[3] == ShutdownProgress(StoppingGuests, 0, n) && !NoCountBehindZero(reports)
  {
    var h := Host(Some(0), true, [Some(n)]);
    FirstReports(h);
    ReportsOfCounted(h);
    ZeroEndsTheMonitor(h);
  }

  // ---------------------------------------------------------------- what the device shows of it

  /** The messages of the turns' inboxes, in order. */
  function Inboxes(inputs: seq<Stick.Input>): seq<Stick.HostFrame>
  {
    if inputs == [] then [] else Inboxes(inputs[..|inputs| - 1]) + inputs[|inputs| - 1].inbox
  }

  /** The device shows a shutdown, with this many guests left. */
  ghost predicate Shows(s: Stick.State, remaining: nat) {
    s.mode == Stick.ShuttingDown && s.session.Some? && Stick.Remaining(s.shutdown) == remaining
  }

  lemma ReportShows(s: Stick.State, now: int, m: HostMessage)
    requires s.session.Some? && (m == ShutdownAccepted || Rank(m) > 0)
    requires Rank(m) == 1 || Rank(m) == 3 ==> RemainingIn(m) == 0
    ensures Shows(Stick.Receive(s, now, Stick.Message(m)).state, RemainingIn(m))
  {
  }

  /** The reports shown so far, or the session waiting for the first. */
  ghost predicate Shown(s: Stick.State, log: seq<HostMessage>) {
    s.session.Some? && (log != [] ==> Shows(s, RemainingIn(log[|log| - 1])))
  }

  lemma {:induction false} InboxShows(s: Stick.State, now: int, before: seq<HostMessage>, log: seq<HostMessage>)
    requires before <= log && StageAfter(log).Some? && Shown(s, before)
    ensures Shown(Stick.ReceiveAll(s, now, Stick.Framed(log[|before|..])).state, log)
    decreases |log|
  {
    var inbox := Stick.Framed(log[|before|..]);
    if before != log {
      var init, m := log[..|log| - 1], log[|log| - 1];
      assert before <= init;
      InboxShows(s, now, before, init);
      assert inbox[..|inbox| - 1] == Stick.Framed(init[|before|..]) && inbox[|inbox| - 1] == Stick.Message(m);
      ReportsAreOrderly(log);
      ReportShows(Stick.ReceiveAll(s, now, inbox[..|inbox| - 1]).state, now, m);
    } else {
      assert log[|before|..] == [];
    }
  }

  lemma QuietStepsKeepShown(s: Stick.State, i: Stick.Input, remaining: nat)
    requires Shows(s, remaining)
    ensures var pressed := Stick.Press(Stick.Age(s, i.now), i.now, i.action, i.held).state;
      Shows(Stick.ShutdownTimers(pressed, i.now, i.usb), remaining)
  {
    var p := Stick.Press(s, i.now, i.action, i.held).state;
    Stick.TimersStep(p, i.now, i.usb);
    Stick.TimersTouchOnlyTheShutdownScreen(p, i.now, i.usb);
  }

  /** One turn of the device's loop that receives the reports behind `before`. */
  lemma TurnShows(s: Stick.State, i: Stick.Input, before: seq<HostMessage>, log: seq<HostMessage>)
    requires before <= log && log != [] && StageAfter(log).Some? && Shown(s, before)
    requires i.inbox == Stick.Framed(log[|before|..])
    ensures Shown(Stick.Turn(s, i).state, log)
  {
    var greeted := Stick.HelloTick(s, i.now).state;
    InboxShows(greeted, i.now, before, log);
    QuietStepsKeepShown(Stick.ReceiveAll(greeted, i.now, i.inbox).state, i, RemainingIn(log[|log| - 1]));
  }

  /** Over every run of the device's loop that receives these reports, however they are spread
      over the turns and whatever its button and timers do, the device shows the shutdown with
      the count of the last report it has received. */
  lemma {:induction false} DeviceShowsLastReport(s: Stick.State, inputs: seq<Stick.Input>, log: seq<HostMessage>)
    requires s.session.Some? && inputs != [] && inputs[0].inbox != []
    requires StageAfter(log).Some? && Inboxes(inputs) == Stick.Framed(log)
    ensures log != [] && Shows(Stick.Turns(s, inputs), RemainingIn(log[|log| - 1]))
    decreases |inputs|
  {
    var init, i := inputs[..|inputs| - 1], inputs[|inputs| - 1];
    var n := |Inboxes(init)|;
    assert |log| == n + |i.inbox|;
    var before := log[..n];
    assert Inboxes(init) == Stick.Framed(before) by {
      assert Stick.Framed(log)[..n] == Inboxes(init) == Stick.Framed(before);
    }
    assert i.inbox == Stick.Framed(log[n..]) by {
      assert Stick.Framed(log)[n..] == i.inbox == Stick.Framed(log[n..]);
    }
    if init != [] {
      PrefixFits(log, before);
      DeviceShowsLastReport(s, init, before);
    }
    TurnShows(Stick.Turns(s, init), i, before, log);
  }
}
