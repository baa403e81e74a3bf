/** How the shutdown handler answers, and which counts it reports, told from the host and from
    the outcomes of the writes alone. */
module ShutdownReplies {
  import opened Common
  import opened Protocol
  import opened Shutdown

  /** What becomes of the k-th write. */
  function OutcomeAt(outcomes: seq<WriteOutcome>, k: nat): WriteOutcome {
    if k < |outcomes| then outcomes[k] else Done
  }

  ghost predicate AllDone(outcomes: seq<WriteOutcome>, n: nat) {
    forall k: nat :: k < n ==> OutcomeAt(outcomes, k) == Done
  }

  lemma AllDoneBehind(outcomes: seq<WriteOutcome>, n: nat)
    requires n > 0
    ensures AllDone(outcomes, n) <==> OutcomeAt(outcomes, 0) == Done && AllDone(Behind(outcomes), n - 1)
  {
    assert forall k: nat :: OutcomeAt(Behind(outcomes), k) == OutcomeAt(outcomes, k + 1);
    if OutcomeAt(outcomes, 0) == Done && AllDone(Behind(outcomes), n - 1) {
      forall k: nat | k < n ensures OutcomeAt(outcomes, k) == Done {
        if k > 0 {
          assert OutcomeAt(Behind(outcomes), k - 1) == Done;
        }
      }
    }
  }

  /** The k-th write is the first that fails. */
  ghost predicate FailsAt(outcomes: seq<WriteOutcome>, k: nat) {
    OutcomeAt(outcomes, k) != Done && AllDone(outcomes, k)
  }

  /** Everything arrives up to the first write that fails, whose own message arrives if only the
      flush behind it failed. */
  lemma {:induction false} ArrivedUpToFailure(messages: seq<HostMessage>, outcomes: seq<WriteOutcome>) returns (k: nat)
    ensures k <= |messages|
    ensures AllArrive(messages, outcomes) <==> AllDone(outcomes, |messages|)
    ensures AllDone(outcomes, |messages|) ==> k == |messages| && Arrived(messages, outcomes) == messages
    ensures !AllDone(outcomes, |messages|) ==>
      && k < |messages| && FailsAt(outcomes, k)
      && Arrived(messages, outcomes) == messages[..if OutcomeAt(outcomes, k) == FlushFailed then k + 1 else k]
    decreases |messages|
  {
    k := 0;
    if messages != [] {
      AllDoneBehind(outcomes, |messages|);
      if OutcomeAt(outcomes, 0) == Done {
        var n := ArrivedUpToFailure(messages[1..], Behind(outcomes));
        k := n + 1;
        if n < |messages| - 1 {
          AllDoneBehind(outcomes, k);
          assert OutcomeAt(outcomes, k) == OutcomeAt(Behind(outcomes), n);
        }
        assert messages == [messages[0]] + messages[1..];
      }
    }
  }

  /** A query that fails, or counts no guests, ends the monitor. */
  ghost predicate MonitorEnds(polls: seq<Option<nat>>) {
    exists k :: 0 <= k < |polls| && (polls[k] == None || polls[k] == Some(0))
  }

  lemma {:induction false} EndsMeans(polls: seq<Option<nat>>)
    ensures Ends(polls) <==> MonitorEnds(polls)
    decreases |polls|
  {
    if polls != [] {
      EndsMeans(polls[1..]);
      if MonitorEnds(polls[1..]) {
        var k :| 0 <= k < |polls[1..]| && (polls[1..][k] == None || polls[1..][k] == Some(0));
        assert polls[k + 1] == polls[1..][k];
      }
      if MonitorEnds(polls) && !(polls[0] == None || polls[0] == Some(0)) {
        var k :| 0 <= k < |polls| && (polls[k] == None || polls[k] == Some(0));
        assert polls[1..][k - 1] == polls[k];
      }
    }
  }

  /** The answer to an allowed request. The process stops exactly if every report was written, the
      command was taken, and there was no guest count to begin with or the monitor ended; it drops
      the port exactly if the request could not even be acknowledged. */
  lemma ReplyMeans(h: Host, outcomes: seq<WriteOutcome>)
    ensures var reply, written := ReplyTo(h, outcomes), AllDone(outcomes, |Reports(h)|);
      var ends := h.initial == None || MonitorEnds(h.polls);
      && (reply == Stop <==> written && h.commandOk && ends)
      && (reply == Busy <==> written && h.commandOk && !ends)
      && (reply == Broken <==> OutcomeAt(outcomes, 0) != Done)
      && (reply == GoOn <==> OutcomeAt(outcomes, 0) == Done && !(written && h.commandOk))
  {
    var k := ArrivedUpToFailure(Reports(h), outcomes);
    EndsMeans(h.polls);
  }

  // ---------------------------------------------------------------- the counts

  function CountsIn(log: seq<HostMessage>): seq<nat>
  {
    if log == [] then []
    else
      var last := log[|log| - 1];
      CountsIn(log[..|log| - 1]) + if Counts(last) then [RemainingIn(last)] else []
  }

  lemma {:induction false} CountsConcat(a: seq<HostMessage>, b: seq<HostMessage>)
    ensures CountsIn(a + b) == CountsIn(a) + CountsIn(b)
    decreases |b|
  {
    if b == [] {
      assert a + b == a;
    } else {
      assert (a + b)[..|a + b| - 1] == a + b[..|b| - 1];
      CountsConcat(a, b[..|b| - 1]);
    }
  }

  lemma CountsOfOne(m: HostMessage)
    ensures CountsIn([m]) == if Counts(m) then [RemainingIn(m)] else []
  {
    assert [m][..0] == [];
  }

  /** These are the answers to the queries, up to the first that fails or counts no guests. */
  ghost predicate AnswersOf(counts: seq<nat>, polls: seq<Option<nat>>)
  {
    && |counts| <= |polls|
    && (forall k :: 0 <= k < |counts| ==> polls[k] == Some(counts[k]))
    && (forall k :: 0 <= k < |counts| - 1 ==> counts[k] != 0)
    && (|counts| < |polls| ==> polls[|counts|] == None || (counts != [] && counts[|counts| - 1] == 0))
  }

  lemma FinalCountsNothing(total: nat, remaining: nat)
    ensures CountsIn(Final(total, remaining)) == []
  {
    CountsOfOne(ShutdownProgress(PoweringOff, total, remaining));
    CountsOfOne(ShutdownProgress(GuestsStopped, total, 0));
    if remaining == 0 {
      CountsConcat([ShutdownProgress(GuestsStopped, total, 0)], [ShutdownProgress(PoweringOff, total, remaining)]);
    } else {
      assert Final(total, remaining) == [ShutdownProgress(PoweringOff, total, remaining)];
    }
  }

  lemma {:induction false} PollingCounts(total: nat, last: nat, polls: seq<Option<nat>>)
    ensures AnswersOf(CountsIn(Polling(total, last, polls)), polls)
    decreases |polls|
  {
    if polls != [] {
      if polls[0].None? {
        FinalCountsNothing(total, last);
      } else {
        var n := polls[0].value;
        var report := ShutdownProgress(StoppingGuests, total, n);
        CountsOfOne(report);
        if n == 0 {
          FinalCountsNothing(total, 0);
          CountsConcat([report], Final(total, 0));
        } else {
          PollingCounts(total, n, polls[1..]);
          CountsConcat([report], Polling(total, n, polls[1..]));
        }
      }
    }
  }

  /** The counts that are reported are the first one, if there is one, and, behind a command that
      was taken, the answers to the queries up to the first that fails or counts no guests. */
  lemma CountsAreTheAnswers(h: Host) returns (answers: seq<nat>)
    ensures AnswersOf(answers, if h.commandOk && h.initial.Some? then h.polls else [])
    ensures CountsIn(Reports(h)) == (if h.initial.Some? then [h.initial.value] else []) + answers
  {
    var accepted, preparing := ShutdownAccepted, ShutdownProgress(PreparingGuests, 0, 0);
    CountsOfOne(accepted);
    CountsOfOne(preparing);
    CountsConcat([accepted], [preparing]);
    var first := if h.initial.Some? then [ShutdownProgress(StoppingGuests, h.initial.value, h.initial.value)] else [];
    if h.initial.Some? {
      CountsOfOne(first[0]);
    }
    CountsConcat([accepted] + [preparing], first);
    CountsConcat([accepted] + [preparing] + first, Outcome(h));
    assert Reports(h) == [accepted] + [preparing] + first + Outcome(h);
    answers := CountsIn(Outcome(h));
    if h.commandOk && h.initial.Some? {
      PollingCounts(h.initial.value, h.initial.value, h.polls);
    } else {
      CountsOfOne(Outcome(h)[0]);
      assert Outcome(h) == [Outcome(h)[0]];
    }
  }
}
