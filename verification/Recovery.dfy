/** Getting back into a session: from every reachable state a short schedule of ordinary
    steps ends with both sides agreed. */
module Recovery {
  import opened Common
  import opened Protocol
  import opened Stick
  import opened UsbTransmit
  import opened Link

  function Repeat(l: World, a: Act, k: nat): World
  {
    if k == 0 then l else Next(Repeat(l, a, k - 1), a)
  }

  lemma {:induction false} RepeatIsARun(l: World, a: Act, k: nat)
    ensures Repeat(l, a, k) == Exec(l, seq(k, _ => a))
  {
    if k > 0 {
      RepeatIsARun(l, a, k - 1);
      assert seq(k, _ => a)[..k - 1] == seq(k - 1, _ => a);
    }
  }

  lemma {:induction false} RepeatKeepsInvariant(l: World, mark: nat, a: Act, k: nat) returns (mark': nat)
    requires Invariant(l, mark)
    ensures Invariant(Repeat(l, a, k), mark')
  {
    mark' := mark;
    if k > 0 {
      mark' := RepeatKeepsInvariant(l, mark, a, k - 1);
      mark' := NextKeepsInvariant(Repeat(l, a, k - 1), mark', a);
    }
  }

  // ---------------------------------------------------------------- emptying the line to the daemon

  lemma {:induction false} EmitRepeated(l: World, k: nat)
    requires k <= |l.queue|
    ensures Repeat(l, Emit, k) == l.(toHost := l.toHost + l.queue[..k], queue := l.queue[k..])
  {
    if k > 0 {
      EmitRepeated(l, k - 1);
      assert l.queue[..k] == l.queue[..k - 1] + [l.queue[k - 1]];
      assert l.toHost + l.queue[..k - 1] + [l.queue[k - 1]] == l.toHost + l.queue[..k];
    } else {
      assert l.toHost + l.queue[..0] == l.toHost;
    }
  }

  /** Whether the handshake stands after these frames: the last Hello among them decides. */
  function EstablishedAfter(established: bool, nonce: Nonce, lines: seq<Line>): bool
  {
    if lines == [] then established
    else
      var last := lines[|lines| - 1];
      if last.Intact? && last.sent.message.Hello? then IsAck(last, nonce)
      else EstablishedAfter(established, nonce, lines[..|lines| - 1])
  }

  /** The requests among these frames that are handed over: those behind which the handshake
      stands when they are read. */
  function HandedIn(established: bool, nonce: Nonce, opening: nat, lines: seq<Line>): seq<Handover>
  {
    if lines == [] then []
    else
      var init, last := lines[..|lines| - 1], lines[|lines| - 1];
      HandedIn(established, nonce, opening, init)
      + if IsRequest(last) && EstablishedAfter(established, nonce, init)
        then [Handover(last.sent.origin, nonce, opening)] else []
  }

  ghost predicate NoRequest(lines: seq<Line>) {
    forall i :: 0 <= i < |lines| ==> !IsRequest(lines[i])
  }

  lemma {:induction false} NothingHanded(established: bool, nonce: Nonce, opening: nat, lines: seq<Line>)
    requires NoRequest(lines)
    ensures HandedIn(established, nonce, opening, lines) == []
  {
    if lines != [] {
      NothingHanded(established, nonce, opening, lines[..|lines| - 1]);
    }
  }

  lemma {:induction false} EstablishedByAck(established: bool, nonce: Nonce, lines: seq<Line>)
    requires EstablishedAfter(established, nonce, lines)
    ensures established || HasAck(lines, nonce)
  {
    if lines != [] {
      var init, last := lines[..|lines| - 1], lines[|lines| - 1];
      if IsAck(last, nonce) {
        assert IsAck(lines[|init|], nonce);
      } else {
        EstablishedByAck(established, nonce, init);
        if HasAck(init, nonce) {
          var i :| 0 <= i < |init| && IsAck(init[i], nonce);
          assert IsAck(lines[i], nonce);
        }
      }
    }
  }

  ghost predicate NoneTimely(lines: seq<Line>, nonce: Nonce, opening: nat) {
    forall i :: 0 <= i < |lines| && IsRequest(lines[i]) ==> !Timely(lines[i].sent.origin, nonce, opening)
  }

  /** A request behind which the handshake stands is timely. */
  lemma StandingIsTimely(established: bool, nonce: Nonce, opening: nat, lines: seq<Line>)
    requires TimelyBehindAck(lines, nonce, opening) && (established ==> AllTimely(lines, nonce, opening))
    requires lines != []
    ensures var last := lines[|lines| - 1];
      IsRequest(last) && EstablishedAfter(established, nonce, lines[..|lines| - 1]) ==>
        Timely(last.sent.origin, nonce, opening)
  {
    var init := lines[..|lines| - 1];
    if EstablishedAfter(established, nonce, init) {
      EstablishedByAck(established, nonce, init);
      if !established {
        var i :| 0 <= i < |init| && IsAck(init[i], nonce);
        assert lines[i] == init[i];
      }
    }
  }

  /** Requests of other sessions and openings are read and dropped. */
  lemma {:induction false} OnlyTimelyAreHanded(established: bool, nonce: Nonce, opening: nat, lines: seq<Line>)
    requires TimelyBehindAck(lines, nonce, opening) && (established ==> AllTimely(lines, nonce, opening))
    requires NoneTimely(lines, nonce, opening)
    ensures HandedIn(established, nonce, opening, lines) == []
  {
    if lines != [] {
      OnlyTimelyAreHanded(established, nonce, opening, lines[..|lines| - 1]);
      StandingIsTimely(established, nonce, opening, lines);
    }
  }

  /** What reading these frames makes of the daemon's end. */
  function HavingRead(l: World, lines: seq<Line>): World
  {
    var h := l.host;
    l.(host := h.(established := EstablishedAfter(h.established, h.nonce, lines)),
       handed := l.handed + HandedIn(h.established, h.nonce, l.opening, lines))
  }

  lemma ReadsOneMore(l: World, lines: seq<Line>, m: World)
    requires m.toHost != [] && l.host.open && l.host.synchronized && m == HavingRead(l, lines).(toHost := m.toHost)
    ensures Next(m, Read) == HavingRead(l, lines + [m.toHost[0]]).(toHost := m.toHost[1..])
  {
    ReadsLine(m);
    LineMore(l, lines, m.toHost[0]);
    assert l.handed + HandedIn(l.host.established, l.host.nonce, l.opening, lines) == m.handed;
  }

  lemma ReadsLine(m: World)
    requires m.toHost != [] && m.host.open && m.host.synchronized
    ensures var line := m.toHost[0];
      Next(m, Read) == m.(toHost := m.toHost[1..],
        host := m.host.(established :=
          if line.Intact? && line.sent.message.Hello? then IsAck(line, m.host.nonce) else m.host.established),
        handed := if IsRequest(line) && m.host.established
                  then m.handed + [Handover(line.sent.origin, m.host.nonce, m.opening)] else m.handed)
  {
  }

  lemma LineMore(l: World, lines: seq<Line>, line: Line)
    ensures var h, more := l.host, lines + [line]; var before := EstablishedAfter(h.established, h.nonce, lines);
      && EstablishedAfter(h.established, h.nonce, more)
         == (if line.Intact? && line.sent.message.Hello? then IsAck(line, h.nonce) else before)
      && l.handed + HandedIn(h.established, h.nonce, l.opening, more)
         == l.handed + HandedIn(h.established, h.nonce, l.opening, lines)
            + if IsRequest(line) && before then [Handover(line.sent.origin, h.nonce, l.opening)] else []
  {
    var more := lines + [line];
    assert more[..|more| - 1] == lines && more[|more| - 1] == line;
  }

  lemma {:induction false} ReadRepeated(l: World, k: nat)
    requires k <= |l.toHost| && l.host.open && l.host.synchronized
    ensures Repeat(l, Read, k) == HavingRead(l, l.toHost[..k]).(toHost := l.toHost[k..])
  {
    if k > 0 {
      ReadRepeated(l, k - 1);
      var before := Repeat(l, Read, k - 1);
      assert before.toHost[0] == l.toHost[k - 1] && l.toHost[..k - 1] + [l.toHost[k - 1]] == l.toHost[..k];
      ReadsOneMore(l, l.toHost[..k - 1], before);
    } else {
      assert l.handed + [] == l.handed;
    }
  }

  /** The device puts its whole queue on the line and the daemon reads everything. */
  function Drained(l: World): World {
    var emitted := Repeat(l, Emit, |l.queue|);
    Repeat(emitted, Read, |emitted.toHost|)
  }

  predicate Listening(l: World) {
    l.host.open && l.host.synchronized
  }

  lemma DrainedEffect(l: World)
    requires Listening(l)
    ensures Drained(l) == HavingRead(l, Pipe(l)).(toHost := [], queue := [])
  {
    EmitRepeated(l, |l.queue|);
    var emitted := Repeat(l, Emit, |l.queue|);
    assert l.queue[..|l.queue|] == l.queue;
    assert emitted.toHost == Pipe(l);
    ReadRepeated(emitted, |emitted.toHost|);
    assert emitted.toHost[..|emitted.toHost|] == Pipe(l);
  }

  // ---------------------------------------------------------------- the device reading everything

  /** The nonces of the challenges among these frames, in order. */
  function Challenges(frames: seq<HostFrame>): seq<Nonce>
  {
    if frames == [] then []
    else
      var last := frames[|frames| - 1];
      Challenges(frames[..|frames| - 1]) + if IsChallenge(last) then [last.message.session] else []
  }

  function SessionAfter(session: Option<Nonce>, frames: seq<HostFrame>): Option<Nonce> {
    var nonces := Challenges(frames);
    if nonces == [] then session else Some(nonces[|nonces| - 1])
  }

  /** These queued lines acknowledge these nonces, as far as they fit. */
  ghost predicate Acknowledges(queue: seq<Line>, nonces: seq<Nonce>)
  {
    && |queue| == Min(QUEUE_CAPACITY, |nonces|)
    && forall i :: 0 <= i < |queue| ==>
         queue[i].Intact? && queue[i].sent.message == Hello(VERSION, Some(nonces[i]))
  }

  /** One frame read by the device. */
  ghost predicate Taken(t: World, frame: HostFrame, u: World)
  {
    && Sound(u.stick)
    && u.stick.session == (if IsChallenge(frame) then Some(frame.message.session) else t.stick.session)
    && u.stick.lastHello == t.stick.lastHello
    && (IsChallenge(frame) ==> u.stick.mode == Waiting)
    && u.toHost == t.toHost && u.host == t.host && u.handed == t.handed && u.opening == t.opening
    && (!IsChallenge(frame) || |t.queue| >= QUEUE_CAPACITY ==> u.queue == t.queue)
    && (IsChallenge(frame) && |t.queue| < QUEUE_CAPACITY ==>
          && |u.queue| == |t.queue| + 1 && u.queue[..|t.queue|] == t.queue
          && u.queue[|t.queue|].Intact?
          && u.queue[|t.queue|].sent.message == Hello(VERSION, Some(frame.message.session)))
  }

  lemma TakeOnce(t: World, now: int)
    requires t.toStick != [] && Sound(t.stick)
    ensures Taken(t, t.toStick[0], Next(t, Take(now)))
    ensures Next(t, Take(now)).toStick == t.toStick[1..]
  {
    var frame := t.toStick[0];
    ReceiveEffect(t.stick, now, frame);
    ReceiveKeepsHelloTime(t.stick, now, frame);
  }

  lemma ReceiveKeepsHelloTime(s: State, now: int, frame: HostFrame)
    ensures Receive(s, now, frame).state.lastHello == s.lastHello
  {
  }

  lemma AcknowledgesOneMore(t: World, frame: HostFrame, u: World, nonces: seq<Nonce>)
    requires Taken(t, frame, u) && Acknowledges(t.queue, nonces)
    ensures Acknowledges(u.queue, nonces + if IsChallenge(frame) then [frame.message.session] else [])
  {
    forall i | 0 <= i < |u.queue|
      ensures i < |t.queue| ==> u.queue[i] == t.queue[i]
    {
      if i < |t.queue| && u.queue != t.queue {
        assert u.queue[..|t.queue|][i] == t.queue[i];
      }
    }
  }

  /** The device has read the first `k` frames of a line, answering challenges into `queue`. */
  ghost predicate TakenAll(l: World, k: nat, t: World)
    requires k <= |l.toStick|
  {
    && Sound(t.stick)
    && t.stick.session == SessionAfter(l.stick.session, l.toStick[..k])
    && t.stick.lastHello == l.stick.lastHello
    && (k > 0 && IsChallenge(l.toStick[k - 1]) ==> t.stick.mode == Waiting)
    && Acknowledges(t.queue, Challenges(l.toStick[..k]))
    && t.toStick == l.toStick[k..] && t.toHost == l.toHost && t.host == l.host
    && t.handed == l.handed && t.opening == l.opening
  }

  lemma TakenOneMore(l: World, k: nat, t: World, u: World)
    requires 0 < k <= |l.toStick| && TakenAll(l, k - 1, t)
    requires Taken(t, l.toStick[k - 1], u) && u.toStick == l.toStick[k..]
    ensures TakenAll(l, k, u)
  {
    var frame := l.toStick[k - 1];
    assert l.toStick[..k][..k - 1] == l.toStick[..k - 1];
    AcknowledgesOneMore(t, frame, u, Challenges(l.toStick[..k - 1]));
  }

  lemma {:induction false} TakeRepeated(l: World, now: int, k: nat)
    requires k <= |l.toStick| && l.queue == [] && Sound(l.stick)
    ensures TakenAll(l, k, Repeat(l, Take(now), k))
  {
    if k > 0 {
      TakeRepeated(l, now, k - 1);
      var t := Repeat(l, Take(now), k - 1);
      TakeOnce(t, now);
      TakenOneMore(l, k, t, Next(t, Take(now)));
    }
  }

  // ---------------------------------------------------------------- the schedule

  predicate TickDue(stick: State, now: int) {
    stick.lastHello == None || now - stick.lastHello.value >= HELLO_INTERVAL
  }

  predicate Quiet(l: World) {
    l.host.open && l.host.synchronized && l.toHost == [] && l.queue == []
  }

  /** The periodic Hello and its way to the daemon. */
  function Heard(l: World, now: int): World {
    Drained(Next(l, Tick(now)))
  }

  lemma HeardEffect(l: World, now: int)
    requires Quiet(l) && Sound(l.stick) && TickDue(l.stick, now)
    ensures var r, talks := Heard(l, now), l.stick.mode != Connected && l.stick.mode != ShuttingDown;
      && Quiet(r) && r.toStick == l.toStick && Sound(r.stick)
      && r.stick.session == l.stick.session && r.stick.mode == l.stick.mode
      && r.stick.lastHello == (if talks then Some(now) else l.stick.lastHello) && r.handed == l.handed
      && r.host == l.host.(established := if talks then l.stick.session == Some(l.host.nonce) else l.host.established)
  {
    TickEffect(l, now);
    var t := Next(l, Tick(now));
    NothingHanded(t.host.established, t.host.nonce, t.opening, Pipe(t));
    DrainedEffect(t);
  }

  /** The Hello of a device that has one to say is all there is on the way. */
  lemma TickEffect(l: World, now: int)
    requires Quiet(l) && Sound(l.stick) && TickDue(l.stick, now)
    ensures var t, talks := Next(l, Tick(now)), l.stick.mode != Connected && l.stick.mode != ShuttingDown;
      && t.host == l.host && t.toHost == [] && t.toStick == l.toStick && NoRequest(Pipe(t)) && t.handed == l.handed
      && t.stick == l.stick.(lastHello := if talks then Some(now) else l.stick.lastHello)
      && EstablishedAfter(l.host.established, l.host.nonce, Pipe(t))
         == if talks then l.stick.session == Some(l.host.nonce) else l.host.established
  {
    var t := Next(l, Tick(now));
    if t.queue == [] {
      assert Pipe(t) == [];
    } else {
      assert Pipe(t) == [t.queue[0]];
    }
  }

  /** The daemon challenges if it must, the device reads everything and its answers arrive. */
  function Answered(l: World, now: int): World {
    var greeted := Next(l, Greet);
    Drained(Repeat(greeted, Take(now), |greeted.toStick|))
  }

  /** The challenges of other openings among these nonces. */
  function Foreign(nonces: seq<Nonce>, nonce: Nonce): nat
  {
    if nonces == [] then 0
    else Foreign(nonces[..|nonces| - 1], nonce) + if nonces[|nonces| - 1] == nonce then 0 else 1
  }

  ghost predicate ForeignFirst(nonces: seq<Nonce>, nonce: Nonce) {
    forall i, j :: 0 <= i < j < |nonces| && nonces[i] == nonce ==> nonces[j] == nonce
  }

  lemma {:induction false} ForeignCounts(nonces: seq<Nonce>, nonce: Nonce)
    requires ForeignFirst(nonces, nonce)
    ensures Foreign(nonces, nonce) <= |nonces|
    ensures forall i :: 0 <= i < |nonces| ==> (nonces[i] != nonce <==> i < Foreign(nonces, nonce))
  {
    if nonces != [] {
      var init := nonces[..|nonces| - 1];
      ForeignCounts(init, nonce);
      assert nonces[|nonces| - 1] != nonce ==> forall i :: 0 <= i < |init| ==> init[i] != nonce;
    }
  }

  lemma {:induction false} ChallengesComeFromFrames(frames: seq<HostFrame>) returns (at: seq<nat>)
    ensures |at| == |Challenges(frames)|
    ensures forall i :: 0 <= i < |at| ==>
      at[i] < |frames| && IsChallenge(frames[at[i]]) && frames[at[i]].message.session == Challenges(frames)[i]
    ensures forall i, j :: 0 <= i < j < |at| ==> at[i] < at[j]
  {
    if frames == [] {
      at := [];
    } else {
      at := ChallengesComeFromFrames(frames[..|frames| - 1]);
      if IsChallenge(frames[|frames| - 1]) {
        at := at + [|frames| - 1];
      }
    }
  }

  lemma ChallengesKeepTheirOrder(frames: seq<HostFrame>, nonce: Nonce)
    ensures OldChallengesFirst(frames, nonce) ==> ForeignFirst(Challenges(frames), nonce)
    ensures OnlyChallenges(frames, nonce) ==>
      forall i :: 0 <= i < |Challenges(frames)| ==> Challenges(frames)[i] == nonce
  {
    var at := ChallengesComeFromFrames(frames);
  }

  lemma LastAckDecides(queue: seq<Line>, nonces: seq<Nonce>, established: bool, nonce: Nonce)
    requires Acknowledges(queue, nonces)
    ensures EstablishedAfter(established, nonce, queue)
         == if nonces == [] then established else nonces[Min(QUEUE_CAPACITY, |nonces|) - 1] == nonce
    ensures NoRequest(queue)
  {
  }

  /** What the answers to these challenges tell a daemon that has just challenged. */
  lemma LastAnswer(earlier: seq<HostFrame>, frames: seq<HostFrame>, nonce: Nonce)
    requires |frames| == |earlier| + 1 && frames[..|earlier|] == earlier
    requires IsChallenge(frames[|earlier|]) && frames[|earlier|].message.session == nonce
    requires OldChallengesFirst(frames, nonce)
    ensures var nonces := Challenges(frames);
      && nonces != [] && nonces[|nonces| - 1] == nonce
      && (nonces[Min(QUEUE_CAPACITY, |nonces|) - 1] == nonce <==> Foreign(Challenges(earlier), nonce) < QUEUE_CAPACITY)
  {
    var nonces := Challenges(frames);
    ChallengesKeepTheirOrder(frames, nonce);
    assert nonces == Challenges(earlier) + [nonce];
    assert nonces[..|nonces| - 1] == Challenges(earlier);
    ForeignCounts(nonces, nonce);
  }

  /** The challenge, what the device makes of the line, and its answers, whatever they are. */
  lemma AnsweredStage(l: World, now: int)
    requires Quiet(l) && Sound(l.stick)
    ensures var r, frames := Answered(l, now), Next(l, Greet).toStick; var nonces := Challenges(frames);
      && Quiet(r) && r.toStick == [] && Sound(r.stick)
      && r.stick.session == SessionAfter(l.stick.session, frames) && r.stick.lastHello == l.stick.lastHello
      && r.handed == l.handed
      && (frames != [] && IsChallenge(frames[|frames| - 1]) ==> r.stick.mode == Waiting)
      && r.host == l.host.(established :=
           if nonces == [] then l.host.established else nonces[Min(QUEUE_CAPACITY, |nonces|) - 1] == l.host.nonce)
  {
    var g := Next(l, Greet);
    var frames := g.toStick;
    var t := Repeat(g, Take(now), |frames|);
    assert TakenAll(g, |frames|, t) && frames[..|frames|] == frames by {
      TakeRepeated(g, now, |frames|);
    }
    TakenIsDrained(t, Challenges(frames));
  }

  lemma TakenIsDrained(t: World, nonces: seq<Nonce>)
    requires t.host.open && t.host.synchronized && t.toHost == [] && Acknowledges(t.queue, nonces)
    ensures Drained(t) == t.(queue := [], host := t.host.(established :=
              if nonces == [] then t.host.established else nonces[Min(QUEUE_CAPACITY, |nonces|) - 1] == t.host.nonce))
  {
    LastAckDecides(t.queue, nonces, t.host.established, t.host.nonce);
    NothingHanded(t.host.established, t.host.nonce, t.opening, t.queue);
    assert Pipe(t) == t.queue;
    DrainedEffect(t);
  }

  /** After the daemon's challenge the device's session is the daemon's nonce in every case;
      the daemon knows it too unless eight older challenges filled the device's queue. */
  lemma AnsweredEffect(l: World, mark: nat, now: int)
    requires Invariant(l, mark) && Quiet(l)
    requires l.host.established ==> l.stick.session == Some(l.host.nonce)
    ensures var r := Answered(l, now);
      && Quiet(r) && r.toStick == [] && Sound(r.stick)
      && r.stick.session == Some(l.host.nonce) && r.stick.lastHello == l.stick.lastHello && r.handed == l.handed
      && r.host == l.host.(established := r.host.established)
      && (r.host.established <==>
            l.host.established || Foreign(Challenges(l.toStick), l.host.nonce) < QUEUE_CAPACITY)
      && (!r.host.established ==> r.stick.mode == Waiting)
  {
    AnsweredStage(l, now);
    if l.host.established {
      AnswersWhileEstablished(l, mark);
    } else {
      AnswersToChallenge(l, mark);
    }
  }

  lemma AnswersWhileEstablished(l: World, mark: nat)
    requires Invariant(l, mark) && l.host.established
    ensures Next(l, Greet) == l
    ensures forall i :: 0 <= i < |Challenges(l.toStick)| ==> Challenges(l.toStick)[i] == l.host.nonce
  {
    assert Reached(l);
    ChallengesKeepTheirOrder(l.toStick, l.host.nonce);
  }

  lemma AnswersToChallenge(l: World, mark: nat)
    requires Invariant(l, mark) && l.host.open && !l.host.established
    ensures var frames := Next(l, Greet).toStick; var nonces := Challenges(frames);
      && frames != [] && IsChallenge(frames[|frames| - 1])
      && nonces != [] && nonces[|nonces| - 1] == l.host.nonce
      && (nonces[Min(QUEUE_CAPACITY, |nonces|) - 1] == l.host.nonce
          <==> Foreign(Challenges(l.toStick), l.host.nonce) < QUEUE_CAPACITY)
  {
    var mark' := NextKeepsInvariant(l, mark, Greet);
    LastAnswer(l.toStick, Next(l, Greet).toStick, l.host.nonce);
  }

  /** Drain, Hello, drain, challenge, answers. */
  function Challenged(l: World, now: int): World {
    Answered(Heard(Drained(l), now), now)
  }

  /** The same, and one more periodic Hello. */
  function Recovered(l: World, now: int): World {
    Heard(Challenged(l, now), now + HELLO_INTERVAL)
  }

  ghost predicate Recoverable(l: World, now: int) {
    Listening(l) && TickDue(l.stick, now)
  }

  lemma HeardIsReachable(l: World, mark: nat, now: int) returns (mark': nat)
    requires Invariant(l, mark)
    ensures Invariant(Heard(l, now), mark')
  {
    mark' := NextKeepsInvariant(l, mark, Tick(now));
    mark' := DrainedIsReachable(Next(l, Tick(now)), mark');
  }

  lemma DrainedIsReachable(l: World, mark: nat) returns (mark': nat)
    requires Invariant(l, mark)
    ensures Invariant(Drained(l), mark')
  {
    mark' := RepeatKeepsInvariant(l, mark, Emit, |l.queue|);
    var emitted := Repeat(l, Emit, |l.queue|);
    mark' := RepeatKeepsInvariant(emitted, mark', Read, |emitted.toHost|);
  }

  /** What the daemon believes after the first Hello is true: its session is the device's. */
  lemma HeardIsHonest(l: World, mark: nat, now: int) returns (mark': nat)
    requires Invariant(l, mark) && Recoverable(l, now)
    ensures var h := Heard(Drained(l), now);
      && Invariant(h, mark') && Quiet(h) && h.toStick == l.toStick && h.host.nonce == l.host.nonce
      && h.handed == l.handed + HandedIn(l.host.established, l.host.nonce, l.opening, Pipe(l))
      && (h.host.established ==> h.stick.session == Some(l.host.nonce))
      && (h.stick.lastHello == None || h.stick.lastHello.value <= now)
  {
    DrainedEffect(l);
    mark' := DrainedIsReachable(l, mark);
    var d := Drained(l);
    HeardEffect(d, now);
    mark' := HeardIsReachable(d, mark', now);
    var h := Heard(d, now);
    assert h.host.established ==> Reached(h);
  }

  /** Bounded recovery: from every reachable state with the port open and synchronised, whatever
      is on the lines, the schedule ends with the handshake established on both sides. It hands
      over exactly the requests on the line behind which the handshake stands. */
  lemma RecoveryCompletes(l: World, mark: nat, now: int)
    requires Invariant(l, mark) && Recoverable(l, now)
    ensures var r := Recovered(l, now);
      && r.host == l.host.(established := true) && r.stick.session == Some(l.host.nonce)
      && Quiet(r) && r.toStick == []
      && r.handed == l.handed + HandedIn(l.host.established, l.host.nonce, l.opening, Pipe(l))
  {
    var mark' := HeardIsHonest(l, mark, now);
    var h := Heard(Drained(l), now);
    DrainedEffect(l);
    HeardEffect(Drained(l), now);
    AnsweredEffect(h, mark', now);
    HeardEffect(Answered(h, now), now + HELLO_INTERVAL);
  }

  lemma NothingTimelyOnTheLine(l: World, mark: nat, lines: seq<Line>)
    requires Invariant(l, mark) && lines == Heeded(l) && NoneTimely(Pipe(l), l.host.nonce, l.opening)
    ensures l.handed + HandedIn(l.host.established, l.host.nonce, l.opening, lines) == l.handed
  {
    var from := |Pipe(l)| - |lines|;
    assert forall i :: 0 <= i < |lines| ==> lines[i] == Pipe(l)[from + i];
    OnlyTimelyAreHanded(l.host.established, l.host.nonce, l.opening, lines);
  }

  /** No reachable state is a deadlock: from every state that any run reaches, if the port is
      open and synchronised, a run of ordinary steps establishes the handshake on both sides. No
      request is handed over on the way unless one of this session and opening is on the line. */
  lemma EveryReachableStateRecovers(nonce: Nonce, start: int, acts: seq<Act>, now: int) returns (more: seq<Act>)
    requires Recoverable(Exec(Start(nonce, start), acts), now)
    ensures forall a :: a in more ==> IsOrdinary(a)
    ensures var l, r := Exec(Start(nonce, start), acts), Exec(Start(nonce, start), acts + more);
      && r.host == l.host.(established := true) && r.stick.session == Some(l.host.nonce)
      && r.handed == l.handed + HandedIn(l.host.established, l.host.nonce, l.opening, Pipe(l))
      && (NoneTimely(Pipe(l), l.host.nonce, l.opening) ==> r.handed == l.handed)
  {
    var l := Exec(Start(nonce, start), acts);
    var mark := ReachableIsInvariant(nonce, start, acts);
    RecoveryCompletes(l, mark, now);
    more := RecoveryIsARun(l, now);
    ExecConcat(Start(nonce, start), acts, more);
    if NoneTimely(Pipe(l), l.host.nonce, l.opening) {
      NothingTimelyOnTheLine(l, mark, Pipe(l));
    }
  }

  // ---------------------------------------------------------------- a port that is not synchronised yet

  lemma {:induction false} EstablishedIsSynchronized(nonce: Nonce, start: int, acts: seq<Act>)
    ensures var h := Exec(Start(nonce, start), acts).host; h.established ==> h.synchronized
    decreases |acts|
  {
    if acts != [] {
      EstablishedIsSynchronized(nonce, start, acts[..|acts| - 1]);
      NextKeepsSynchronized(Exec(Start(nonce, start), acts[..|acts| - 1]), acts[|acts| - 1]);
    }
  }

  lemma NextKeepsSynchronized(l: World, a: Act)
    requires l.host.established ==> l.host.synchronized
    ensures Next(l, a).host.established ==> Next(l, a).host.synchronized
  {
  }

  lemma {:induction false} ReadsFromNext(l: World, k: nat)
    ensures Repeat(l, Read, k + 1) == Repeat(Next(l, Read), Read, k)
  {
    if k > 0 {
      ReadsFromNext(l, k - 1);
    }
  }

  lemma FirstReadSynchronizes(l: World)
    requires l.host.open && !l.host.synchronized && l.toHost != []
    ensures Next(l, Read) == l.(toHost := l.toHost[1..], host := l.host.(synchronized := true))
  {
  }

  /** The frames that tell the daemon something: all but the one that synchronises it. */
  function Heeded(l: World): seq<Line> {
    if l.host.synchronized || Pipe(l) == [] then Pipe(l) else Pipe(l)[1..]
  }

  function Synchronized(l: World): World {
    l.(host := l.host.(synchronized := true))
  }

  lemma UnsynchronizedReads(l: World)
    requires l.host.open && !l.host.synchronized && l.toHost != []
    ensures Repeat(l, Read, |l.toHost|) == HavingRead(Synchronized(l), l.toHost[1..]).(toHost := [])
  {
    FirstReadSynchronizes(l);
    var first := Next(l, Read);
    ReadsFromNext(l, |l.toHost| - 1);
    ReadRepeated(first, |first.toHost|);
    assert first.toHost[..|first.toHost|] == l.toHost[1..];
  }

  /** The first frame only synchronises the daemon; it reads the others. */
  lemma UnsynchronizedDrained(l: World)
    requires l.host.open && !l.host.synchronized && Pipe(l) != []
    ensures Drained(l) == HavingRead(Synchronized(l), Heeded(l)).(toHost := [], queue := [])
  {
    EmitRepeated(l, |l.queue|);
    assert l.queue[..|l.queue|] == l.queue;
    UnsynchronizedReads(Repeat(l, Emit, |l.queue|));
  }

  /** Drain, challenge and answers, whether the daemon is synchronised or not. */
  function Settled(l: World, now: int): World {
    Answered(Drained(l), now)
  }

  /** The daemon's end behind these steps, but for the handshake. */
  ghost predicate SettledAs(l: World, r: World)
  {
    && Quiet(r) && Sound(r.stick) && r.stick.lastHello == l.stick.lastHello && r.host.nonce == l.host.nonce
    && r.handed == l.handed + HandedIn(l.host.established, l.host.nonce, l.opening, Heeded(l))
  }

  lemma SettledIsQuiet(l: World, now: int)
    requires l.host.open && Sound(l.stick) && (l.host.established ==> l.host.synchronized)
    ensures SettledAs(l, Settled(l, now))
  {
    if l.host.synchronized {
      DrainedEffect(l);
      AnsweredStage(Drained(l), now);
    } else if Pipe(l) != [] {
      UnsynchronizedDrained(l);
      AnsweredStage(Drained(l), now);
    } else {
      assert l.toHost == [] && l.queue == [] && Drained(l) == l;
      FirstAnswerSynchronizes(l, now);
    }
  }

  lemma FirstAnswerSynchronizes(l: World, now: int)
    requires l.host.open && !l.host.synchronized && !l.host.established && Sound(l.stick)
    requires l.toHost == [] && l.queue == []
    ensures SettledAs(l, Answered(l, now))
  {
    var g := Next(l, Greet);
    var frames := g.toStick;
    var t := Repeat(g, Take(now), |frames|);
    TakeRepeated(g, now, |frames|);
    assert frames[..|frames|] == frames && IsChallenge(frames[|frames| - 1]);
    assert |Challenges(frames)| >= 1 && t.queue != [];
    LastAckDecides(t.queue, Challenges(frames), false, l.host.nonce);
    FirstAnswersSynchronize(t);
    assert Pipe(l) == [] && l.handed + [] == l.handed;
  }

  lemma FirstAnswersSynchronize(t: World)
    requires t.host.open && !t.host.synchronized && t.toHost == [] && t.queue != [] && NoRequest(t.queue)
    ensures var r := Drained(t);
      && Quiet(r) && r.stick == t.stick && r.handed == t.handed && r.host.nonce == t.host.nonce
  {
    assert Pipe(t) == t.queue;
    UnsynchronizedDrained(t);
    NothingHanded(t.host.established, t.host.nonce, t.opening, Heeded(t));
  }

  lemma SettledIsARun(l: World, now: int) returns (acts: seq<Act>)
    ensures Exec(l, acts) == Settled(l, now)
    ensures forall a :: a in acts ==> IsOrdinary(a)
  {
    var first := DrainedIsARun(l);
    var second := AnsweredIsARun(Drained(l), now);
    ExecConcat(l, first, second);
    acts := first + second;
  }

  lemma SettledIsReachable(l: World, mark: nat, now: int) returns (mark': nat)
    requires Invariant(l, mark)
    ensures Invariant(Settled(l, now), mark')
  {
    var d := Drained(l);
    mark' := DrainedIsReachable(l, mark);
    mark' := NextKeepsInvariant(d, mark', Greet);
    var g := Next(d, Greet);
    mark' := RepeatKeepsInvariant(g, mark', Take(now), |g.toStick|);
    mark' := DrainedIsReachable(Repeat(g, Take(now), |g.toStick|), mark');
  }

  lemma SettledIsRecoverable(l: World, now: int, later: int)
    requires l.host.open && Sound(l.stick) && (l.host.established ==> l.host.synchronized)
    requires TickDue(l.stick, later)
    ensures Recoverable(Settled(l, now), later) && SettledAs(l, Settled(l, now))
    ensures var h := Settled(l, now).host; h == Session(true, l.host.nonce, h.established, true)
  {
    SettledIsQuiet(l, now);
  }

  lemma OpenPortRecovers(l: World, mark: nat, now: int, later: int) returns (more: seq<Act>)
    requires Invariant(l, mark) && l.host.open && TickDue(l.stick, later)
    requires l.host.established ==> l.host.synchronized
    ensures forall a :: a in more ==> IsOrdinary(a)
    ensures var r := Exec(l, more);
      && r.host == Session(true, l.host.nonce, true, true) && r.stick.session == Some(l.host.nonce)
      && r.handed == l.handed + HandedIn(l.host.established, l.host.nonce, l.opening, Heeded(l))
  {
    SettledIsRecoverable(l, now, later);
    var settled := Settled(l, now);
    var mark' := SettledIsReachable(l, mark, now);
    RecoveryCompletes(settled, mark', later);
    assert Pipe(settled) == [] && settled.handed + [] == settled.handed;
    var first := SettledIsARun(l, now);
    var rest := RecoveryIsARun(settled, later);
    ExecConcat(l, first, rest);
    more := first + rest;
  }

  /** The same for every open port, synchronised or not: the first frame may be lost to it. */
  lemma EveryOpenPortRecovers(nonce: Nonce, start: int, acts: seq<Act>, now: int, later: int) returns (more: seq<Act>)
    requires var l := Exec(Start(nonce, start), acts); l.host.open && TickDue(l.stick, later)
    ensures forall a :: a in more ==> IsOrdinary(a)
    ensures var l, r := Exec(Start(nonce, start), acts), Exec(Start(nonce, start), acts + more);
      && r.host == Session(true, l.host.nonce, true, true) && r.stick.session == Some(l.host.nonce)
      && r.handed == l.handed + HandedIn(l.host.established, l.host.nonce, l.opening, Heeded(l))
      && (NoneTimely(Pipe(l), l.host.nonce, l.opening) ==> r.handed == l.handed)
  {
    var l := Exec(Start(nonce, start), acts);
    var mark := ReachableIsInvariant(nonce, start, acts);
    EstablishedIsSynchronized(nonce, start, acts);
    more := OpenPortRecovers(l, mark, now, later);
    ExecConcat(Start(nonce, start), acts, more);
    if NoneTimely(Pipe(l), l.host.nonce, l.opening) {
      NothingTimelyOnTheLine(l, mark, Heeded(l));
    }
  }

  /** Whether the daemon holds the handshake after draining and one periodic Hello, told from
      before: a device that says Hello says its session, a silent one leaves what is under way. */
  predicate HeldAfterHello(l: World) {
    if l.stick.mode != Connected && l.stick.mode != ShuttingDown then l.stick.session == Some(l.host.nonce)
    else EstablishedAfter(l.host.established, l.host.nonce, Pipe(l))
  }

  lemma HeldAfterHelloIsExact(l: World, mark: nat, now: int)
    requires Invariant(l, mark) && Recoverable(l, now)
    ensures Heard(Drained(l), now).host.established <==> HeldAfterHello(l)
  {
    DrainedEffect(l);
    HeardEffect(Drained(l), now);
  }

  /** Exactly when the last Hello of the schedule is not needed: the handshake holds after the
      first one, or the device's queue of eight answers is not filled by challenges of earlier
      openings still on the line. */
  lemma RecoveryWithoutLastHello(l: World, mark: nat, now: int)
    requires Invariant(l, mark) && Recoverable(l, now)
    ensures Challenged(l, now).host.established
       <==> HeldAfterHello(l) || Foreign(Challenges(l.toStick), l.host.nonce) < QUEUE_CAPACITY
  {
    var mark' := HeardIsHonest(l, mark, now);
    AnsweredEffect(Heard(Drained(l), now), mark', now);
    HeldAfterHelloIsExact(l, mark, now);
  }

  // ---------------------------------------------------------------- a state that needs the last Hello

  /** The port is opened, challenged and closed again n times. */
  function Reopenings(n: nat): seq<Act>
    requires n <= QUEUE_CAPACITY
  {
    if n == 0 then [] else Reopenings(n - 1) + [Open(n)] + [Greet] + [Close]
  }

  /** Before the next opening: n unread challenges of n openings. */
  ghost predicate Reopened(l: World, start: int, n: nat, mine: Nonce)
  {
    && !l.host.open && l.stick == Booted(start) && l.toHost == [] && Pipe(l) == l.queue
    && |l.queue| == 1 && !IsRequest(l.queue[0])
    && (forall k :: k in l.used ==> k <= n)
    && Foreign(Challenges(l.toStick), mine) == n
  }

  /** Opened, challenged and closed: a challenge more on the line. */
  function ReopenedOnce(l: World, nonce: Nonce): World {
    l.(toStick := l.toStick + [Message(Challenge(VERSION, nonce))], host := Session(false, nonce, false, false),
       opening := l.opening + 1, used := l.used + {nonce})
  }

  lemma OneReopening(l: World, nonce: Nonce)
    requires !l.host.open && nonce !in l.used
    ensures Next(Next(Next(l, Open(nonce)), Greet), Close) == ReopenedOnce(l, nonce)
  {
  }

  lemma OneMoreForeign(frames: seq<HostFrame>, nonce: Nonce, mine: Nonce)
    requires nonce != mine
    ensures Foreign(Challenges(frames + [Message(Challenge(VERSION, nonce))]), mine)
         == Foreign(Challenges(frames), mine) + 1
  {
    var more := frames + [Message(Challenge(VERSION, nonce))];
    assert more[..|frames|] == frames;
    assert Challenges(more) == Challenges(frames) + [nonce];
    assert Challenges(more)[..|Challenges(frames)|] == Challenges(frames);
  }

  lemma ReopenedOnceMore(l: World, r: World, start: int, n: nat, mine: Nonce)
    requires 0 < n <= QUEUE_CAPACITY < mine && Reopened(l, start, n - 1, mine) && r == ReopenedOnce(l, n)
    ensures Reopened(r, start, n, mine)
  {
    OneMoreForeign(l.toStick, n, mine);
    assert r.toHost == l.toHost && r.queue == l.queue && r.stick == l.stick;
    assert Pipe(r) == Pipe(l);
  }

  lemma ReopeningsLast(l: World, n: nat)
    requires 0 < n <= QUEUE_CAPACITY
    requires var before := Exec(l, Reopenings(n - 1)); !before.host.open && n !in before.used
    ensures Exec(l, Reopenings(n)) == ReopenedOnce(Exec(l, Reopenings(n - 1)), n)
  {
    var before := Reopenings(n - 1);
    ExecAppend(l, before, Open(n));
    ExecAppend(l, before + [Open(n)], Greet);
    ExecAppend(l, before + [Open(n)] + [Greet], Close);
    OneReopening(Exec(l, before), n);
  }

  lemma StartIsReopened(start: int)
    ensures Reopened(Start(0, start), start, 0, QUEUE_CAPACITY + 1)
  {
    assert Pipe(Start(0, start)) == Start(0, start).queue;
  }

  lemma {:induction false} ReopeningsEffect(l: World, start: int, n: nat, mine: Nonce) returns (r: World)
    requires n <= QUEUE_CAPACITY < mine && Reopened(l, start, 0, mine)
    ensures r == Exec(l, Reopenings(n)) && Reopened(r, start, n, mine)
  {
    if n == 0 {
      r := l;
    } else {
      var before := ReopeningsEffect(l, start, n - 1, mine);
      ReopeningsLast(l, n);
      r := ReopenedOnce(before, n);
      ReopenedOnceMore(before, r, start, n, mine);
    }
  }

  /** Such a state is reached: eight openings that were closed unanswered, a ninth, and its first
      frame read. The schedule without its last Hello then leaves the daemon without handshake. */
  lemma LastHelloIsNeeded(start: int, now: int)
    ensures var l := Exec(Start(0, start), Reopenings(8) + [Open(9)] + [Emit] + [Read]);
      Recoverable(l, now) && !Challenged(l, now).host.established
  {
    StartIsReopened(start);
    var acts := Reopenings(8);
    var closed := ReopeningsEffect(Start(0, start), start, 8, 9);
    ExecAppend(Start(0, start), acts, Open(9));
    ExecAppend(Start(0, start), acts + [Open(9)], Emit);
    ExecAppend(Start(0, start), acts + [Open(9)] + [Emit], Read);
    var l := NinthOpening(closed, start);
    var mark := ReachableIsInvariant(0, start, acts + [Open(9)] + [Emit] + [Read]);
    RecoveryWithoutLastHello(l, mark, now);
  }

  lemma NinthOpening(closed: World, start: int) returns (l: World)
    requires Reopened(closed, start, 8, 9)
    ensures l == Next(Next(Next(closed, Open(9)), Emit), Read)
    ensures Listening(l) && l.stick == Booted(start) && l.host.nonce == 9
    ensures Foreign(Challenges(l.toStick), 9) == 8
  {
    l := Next(Next(Next(closed, Open(9)), Emit), Read);
    assert Pipe(l) == [];
  }

  // ---------------------------------------------------------------- the schedule as a run

  /** What the parties do by themselves: no reset, no opening, no fault. */
  predicate IsOrdinary(a: Act) {
    a.Tick? || a.Take? || a.Emit? || a.Greet? || a.Read?
  }

  /** The schedule is a run of ordinary steps. */
  lemma RecoveryIsARun(l: World, now: int) returns (acts: seq<Act>)
    ensures Exec(l, acts) == Recovered(l, now)
    ensures forall a :: a in acts ==> IsOrdinary(a)
  {
    var first := DrainedIsARun(l);
    var second := HeardIsARun(Drained(l), now);
    ExecConcat(l, first, second);
    var third := AnsweredIsARun(Heard(Drained(l), now), now);
    ExecConcat(l, first + second, third);
    var last := HeardIsARun(Challenged(l, now), now + HELLO_INTERVAL);
    ExecConcat(l, first + second + third, last);
    acts := first + second + third + last;
  }

  lemma AnsweredIsARun(l: World, now: int) returns (acts: seq<Act>)
    ensures Exec(l, acts) == Answered(l, now)
    ensures forall a :: a in acts ==> a.Take? || a.Emit? || a.Greet? || a.Read?
  {
    var g := Next(l, Greet);
    assert [Greet][..0] == [];
    RepeatIsARun(g, Take(now), |g.toStick|);
    var taking := seq(|g.toStick|, _ => Take(now));
    ExecConcat(l, [Greet], taking);
    var draining := DrainedIsARun(Repeat(g, Take(now), |g.toStick|));
    ExecConcat(l, [Greet] + taking, draining);
    acts := [Greet] + taking + draining;
  }

  /** The whole queue is put on the line, and everything on the line is read. */
  function DrainActs(l: World): seq<Act> {
    seq(|l.queue|, _ => Emit) + seq(|l.toHost| + |l.queue|, _ => Read)
  }

  lemma DrainActsRun(l: World)
    ensures Exec(l, DrainActs(l)) == Drained(l)
  {
    EmitRepeated(l, |l.queue|);
    var emitted := Repeat(l, Emit, |l.queue|);
    RepeatIsARun(l, Emit, |l.queue|);
    RepeatIsARun(emitted, Read, |emitted.toHost|);
    ExecConcat(l, seq(|l.queue|, _ => Emit), seq(|emitted.toHost|, _ => Read));
  }

  lemma DrainedIsARun(l: World) returns (acts: seq<Act>)
    ensures Exec(l, acts) == Drained(l) && forall a :: a in acts ==> a.Emit? || a.Read?
  {
    DrainActsRun(l);
    acts := DrainActs(l);
  }

  lemma HeardIsARun(l: World, now: int) returns (acts: seq<Act>)
    ensures Exec(l, acts) == Heard(l, now) && forall a :: a in acts ==> a.Tick? || a.Emit? || a.Read?
  {
    var rest := DrainedIsARun(Next(l, Tick(now)));
    acts := [Tick(now)] + rest;
    assert [Tick(now)][..0] == [];
    ExecConcat(l, [Tick(now)], rest);
  }
}
