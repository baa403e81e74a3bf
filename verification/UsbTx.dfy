/** The device's transmit path: a queue of eight messages and one partly written frame
    that resumes wherever the peripheral last refused a byte. */
module UsbTransmit {
  import opened Common
  import opened Protocol
  import opened Wire
  import Cobs

  const QUEUE_CAPACITY := 8

  /** How messages become frames, which of them displace older ones, and the frame limit. */
  datatype Coder<!T> = Coder(encode: T -> seq<Byte>, urgent: T -> bool, limit: nat)

  const DEVICE: Coder<DeviceMessage> :=
    Coder((m: DeviceMessage) => EncodeDevice(m), (m: DeviceMessage) => m.ShutdownRequested?, MAX_DEVICE_FRAME_LEN)

  /** The queue after a message is offered: a full queue refuses it, except that an
      urgent one displaces the oldest entry. */
  function Offered<T>(queue: seq<T>, message: T, urgent: bool): (r: seq<T>)
    ensures |queue| <= QUEUE_CAPACITY ==> |r| <= QUEUE_CAPACITY
  {
    if |queue| < QUEUE_CAPACITY then queue + [message]
    else if urgent then queue[1..] + [message]
    else queue
  }

  /** The transmit path with its history: everything ever offered (`log`), the messages whose
      frames were started (`sent`) and the bytes handed to the peripheral (`wire`). */
  datatype Tx<T> = Tx(queue: seq<T>, unsent: seq<Byte>, wire: seq<Byte>, sent: seq<T>, log: seq<T>)

  datatype TxOp<T> =
    | Enqueue(message: T)
    | Poll(accepted: nat)   // the peripheral takes this many bytes, then refuses

  function Loaded<T>(coder: Coder<T>, tx: Tx<T>): Tx<T>
  {
    if tx.unsent != [] || tx.queue == [] then tx
    else
      var frame := coder.encode(tx.queue[0]);
      if |frame| <= coder.limit then
        tx.(queue := tx.queue[1..], unsent := frame, sent := tx.sent + [tx.queue[0]])
      else
        tx.(queue := tx.queue[1..])
  }

  function Written<T>(tx: Tx<T>, accepted: nat): Tx<T>
  {
    var n := Min(accepted, |tx.unsent|);
    tx.(wire := tx.wire + tx.unsent[..n], unsent := tx.unsent[n..])
  }

  function Apply<T>(coder: Coder<T>, tx: Tx<T>, op: TxOp<T>): Tx<T>
  {
    match op
    case Enqueue(m) => tx.(queue := Offered(tx.queue, m, coder.urgent(m)), log := tx.log + [m])
    case Poll(accepted) => Written(Loaded(coder, tx), accepted)
  }

  function Run<T>(coder: Coder<T>, tx: Tx<T>, ops: seq<TxOp<T>>): Tx<T>
    decreases |ops|
  {
    if ops == [] then tx else Apply(coder, Run(coder, tx, ops[..|ops| - 1]), ops[|ops| - 1])
  }

  /** The serial peripheral: it accepts `room` more bytes and then refuses. */
  class UsbSerial {
    var written: seq<Byte>
    var room: nat

    method WriteByteNb(byte: Byte) returns (ok: bool)
      modifies this
      ensures ok == (old(room) > 0)
      ensures written == if ok then old(written) + [byte] else old(written)
      ensures room == if ok then old(room) - 1 else 0
    {
      ok := room > 0;
      if ok {
        written, room := written + [byte], room - 1;
      }
    }
  }

  class UsbTx {
    var queue: seq<DeviceMessage>
    const frame: array<Byte>
    var len: nat
    var cursor: nat
    ghost var sent: seq<DeviceMessage>
    ghost var log: seq<DeviceMessage>

    ghost predicate Valid()
      reads this
    {
      cursor <= len <= frame.Length == MAX_DEVICE_FRAME_LEN
    }

    ghost function State(wire: seq<Byte>): Tx<DeviceMessage>
      reads this, frame
      requires Valid()
    {
      Tx(queue, frame[cursor..len], wire, sent, log)
    }

    constructor ()
      ensures Valid() && fresh(frame)
      ensures State([]) == Tx([], [], [], [], [])
    {
      queue, len, cursor := [], 0, 0;
      frame := new Byte[MAX_DEVICE_FRAME_LEN];
      sent, log := [], [];
    }

    method EnqueueMessage(message: DeviceMessage, ghost wire: seq<Byte>)
      requires Valid()
      modifies this
      ensures Valid() && State(wire) == Apply(DEVICE, old(State(wire)), Enqueue(message))
    {
      log := log + [message];
      if |queue| < QUEUE_CAPACITY {
        queue := queue + [message];
      } else if message.ShutdownRequested? {
        queue := queue[1..];
        queue := queue + [message];
      }
    }

    /** Takes the next message into the frame buffer once the previous frame is out. */
    method LoadFrame(ghost wire: seq<Byte>)
      requires Valid()
      modifies this, frame
      ensures Valid() && State(wire) == Loaded(DEVICE, old(State(wire)))
    {
      if cursor == len && queue != [] {
        var message := queue[0];
        queue := queue[1..];
        var encoded := Encode(PutMessage(message), frame);
        if encoded.Ok? {
          len, cursor := encoded.value, 0;
          sent := sent + [message];
          assert frame[0..len] == frame[..len];
        }
      }
    }

    /** Hands over the current frame until it is out or a byte is refused. */
    method WriteFrame(usb: UsbSerial)
      requires Valid()
      modifies this, usb
      ensures Valid() && State(usb.written) == Written(old(State(usb.written)), old(usb.room))
    {
      ghost var tx, bytes, start, room := State(usb.written), frame[..], cursor, usb.room;
      while cursor < len
        invariant start <= cursor <= len && Valid()
        invariant queue == old(queue) && sent == old(sent) && log == old(log) && len == old(len)
        invariant usb.written == tx.wire + bytes[start..cursor]
        invariant usb.room == room - (cursor - start)
      {
        var ok := usb.WriteByteNb(frame[cursor]);
        if !ok {
          WrittenSlices(tx, bytes, start, cursor, len, room);
          return;
        }
        OneByteFurther(bytes, start, cursor);
        cursor := cursor + 1;
      }
      WrittenSlices(tx, bytes, start, len, len, room);
      len, cursor := 0, 0;
    }

    /** One call per device loop turn: resumes the current frame where it stopped. */
    method PollOnce(usb: UsbSerial)
      requires Valid()
      modifies this, frame, usb
      ensures Valid() && State(usb.written) == Apply(DEVICE, old(State(usb.written)), Poll(old(usb.room)))
    {
      LoadFrame(usb.written);
      WriteFrame(usb);
    }
  }

  lemma OneByteFurther(s: seq<Byte>, i: nat, j: nat)
    requires i <= j < |s|
    ensures s[i..j + 1] == s[i..j] + [s[j]]
  {
  }

  /** The frame buffer's slices before and behind the cursor, as the rest that was unsent. */
  lemma WrittenSlices(tx: Tx<DeviceMessage>, s: seq<Byte>, start: nat, cursor: nat, len: nat, room: nat)
    requires start <= cursor <= len <= |s| && tx.unsent == s[start..len]
    requires cursor - start == Min(room, len - start)
    ensures Written(tx, room) == tx.(wire := tx.wire + s[start..cursor], unsent := s[cursor..len])
  {
    assert tx.unsent[..cursor - start] == s[start..cursor] && tx.unsent[cursor - start..] == s[cursor..len];
  }

  function FramesOf<T>(coder: Coder<T>, messages: seq<T>): seq<Byte> {
    FlatMap(coder.encode, messages)
  }

  lemma FirstFrameApart<T>(coder: Coder<T>, messages: seq<T>)
    requires messages != []
    ensures FramesOf(coder, messages) == coder.encode(messages[0]) + FramesOf(coder, messages[1..])
  {
  }

  /** The rest of the current frame is the end of the last started message. */
  ghost predicate UnsentIsEndOfLast<T>(coder: Coder<T>, tx: Tx<T>)
  {
    tx.unsent != [] ==>
      && tx.sent != []
      && var last := coder.encode(tx.sent[|tx.sent| - 1]);
         |tx.unsent| <= |last| && tx.unsent == last[|last| - |tx.unsent|..]
  }

  /** The bytes handed over and the rest of the current frame are whole frames, and no
      message is invented, repeated or reordered on the way from the log to the line. */
  ghost predicate Faithful<T>(coder: Coder<T>, tx: Tx<T>)
  {
    && tx.wire + tx.unsent == FramesOf(coder, tx.sent)
    && UnsentIsEndOfLast(coder, tx)
    && |tx.queue| <= QUEUE_CAPACITY
    && Subsequence(tx.sent + tx.queue, tx.log)
    && forall i :: 0 <= i < |tx.sent| ==> |coder.encode(tx.sent[i])| <= coder.limit
  }

  lemma EnqueueKeepsFaithful<T>(coder: Coder<T>, tx: Tx<T>, message: T)
    requires Faithful(coder, tx)
    ensures Faithful(coder, Apply(coder, tx, Enqueue(message)))
  {
    var all := tx.sent + tx.queue;
    SubsequenceOfLonger(all, tx.log, message);
    if |tx.queue| < QUEUE_CAPACITY {
      assert tx.sent + (tx.queue + [message]) == all + [message];
    } else if coder.urgent(message) {
      SubsequenceWithoutOne(all, tx.log, |tx.sent|);
      var kept := all[..|tx.sent|] + all[|tx.sent| + 1..];
      SubsequenceOfLonger(kept, tx.log, message);
      assert tx.sent + (tx.queue[1..] + [message]) == kept + [message];
    }
  }

  lemma LoadKeepsFaithful<T>(coder: Coder<T>, tx: Tx<T>)
    requires Faithful(coder, tx)
    ensures Faithful(coder, Loaded(coder, tx))
  {
    if tx.unsent == [] && tx.queue != [] {
      var all := tx.sent + tx.queue;
      FlatMapAppend(coder.encode, tx.sent, tx.queue[0]);
      assert tx.wire + [] == tx.wire;
      SubsequenceWithoutOne(all, tx.log, |tx.sent|);
      assert tx.sent + tx.queue[1..] == all[..|tx.sent|] + all[|tx.sent| + 1..];
      assert tx.sent + [tx.queue[0]] + tx.queue[1..] == all;
    }
  }

  lemma WriteKeepsFaithful<T>(coder: Coder<T>, tx: Tx<T>, accepted: nat)
    requires Faithful(coder, tx)
    ensures Faithful(coder, Written(tx, accepted))
  {
    var n := Min(accepted, |tx.unsent|);
    assert tx.wire + tx.unsent[..n] + tx.unsent[n..] == tx.wire + tx.unsent;
  }

  /** Every interleaving of enqueues and polls, and every pattern of refused bytes. */
  lemma {:induction false} TransmitIsFaithful<T>(coder: Coder<T>, ops: seq<TxOp<T>>)
    ensures Faithful(coder, Run(coder, Tx([], [], [], [], []), ops))
    decreases |ops|
  {
    var idle: Tx<T> := Tx([], [], [], [], []);
    if ops == [] {
      assert Embeds(idle.sent + idle.queue, idle.log, []);
    } else {
      TransmitIsFaithful(coder, ops[..|ops| - 1]);
      var tx := Run(coder, idle, ops[..|ops| - 1]);
      match ops[|ops| - 1]
      case Enqueue(m) => EnqueueKeepsFaithful(coder, tx, m);
      case Poll(accepted) =>
        LoadKeepsFaithful(coder, tx);
        WriteKeepsFaithful(coder, Loaded(coder, tx), accepted);
    }
  }

  /** The messages whose frames are completely on the line. */
  function Completed<T>(tx: Tx<T>): seq<T> {
    if tx.unsent == [] || tx.sent == [] then tx.sent else tx.sent[..|tx.sent| - 1]
  }

  lemma CutLastFrame(wire: seq<Byte>, unsent: seq<Byte>, front: seq<Byte>, frame: seq<Byte>)
    requires wire + unsent == front + frame
    requires |unsent| <= |frame| && unsent == frame[|frame| - |unsent|..]
    ensures wire == front + frame[..|frame| - |unsent|]
  {
    assert wire == (wire + unsent)[..|wire|];
    assert |wire| == |front| + (|frame| - |unsent|);
  }

  lemma LastFrameApart<T>(coder: Coder<T>, sent: seq<T>)
    requires sent != []
    ensures FramesOf(coder, sent) == FramesOf(coder, sent[..|sent| - 1]) + coder.encode(sent[|sent| - 1])
  {
    FlatMapAppend(coder.encode, sent[..|sent| - 1], sent[|sent| - 1]);
    assert sent == sent[..|sent| - 1] + [sent[|sent| - 1]];
  }

  lemma LastFrameIsCut<T>(coder: Coder<T>, tx: Tx<T>)
    requires Faithful(coder, tx) && tx.unsent != []
    ensures var last := coder.encode(tx.sent[|tx.sent| - 1]);
      |tx.unsent| <= |last| && tx.wire == FramesOf(coder, Completed(tx)) + last[..|last| - |tx.unsent|]
  {
    LastFrameApart(coder, tx.sent);
    CutLastFrame(tx.wire, tx.unsent, FramesOf(coder, Completed(tx)), coder.encode(tx.sent[|tx.sent| - 1]));
  }

  /** A poll writes as much as the peripheral takes of the frame under way, or of the next one. */
  lemma PollWrites<T>(coder: Coder<T>, tx: Tx<T>, accepted: nat)
    ensures var e := Apply(coder, tx, Poll(accepted)); var frame := Loaded(coder, tx).unsent;
      && e.wire == tx.wire + frame[..Min(accepted, |frame|)] && e.unsent == frame[Min(accepted, |frame|)..]
      && (tx.unsent != [] ==> frame == tx.unsent)
      && (tx.unsent == [] && tx.queue != [] && |coder.encode(tx.queue[0])| <= coder.limit ==>
            frame == coder.encode(tx.queue[0]))
      && (tx.unsent == [] && tx.queue != [] && |coder.encode(tx.queue[0])| > coder.limit ==>
            frame == [] && e.queue == tx.queue[1..] && e.sent == tx.sent)
  {
  }

  ghost predicate AllSendable<T>(coder: Coder<T>, messages: seq<T>) {
    forall k :: 0 <= k < |messages| ==> 0 < |coder.encode(messages[k])| <= coder.limit
  }

  function Polls<T>(n: nat, accepted: nat): seq<TxOp<T>> {
    seq(n, _ => Poll(accepted))
  }

  /** The first `n` queued messages have gone out, and nothing is under way. */
  ghost predicate SentOut<T>(coder: Coder<T>, tx: Tx<T>, n: nat, e: Tx<T>)
    requires n <= |tx.queue|
  {
    && e.unsent == [] && e.queue == tx.queue[n..] && e.sent == tx.sent + tx.queue[..n]
    && e.wire == tx.wire + FramesOf(coder, tx.queue[..n])
  }

  /** Nothing is held back: once the frame under way is out, as many polls as there are messages in
      the queue put all of them on the line, if the peripheral takes a frame at a time. */
  lemma {:induction false} PollsEmptyTheQueue<T>(coder: Coder<T>, tx: Tx<T>, n: nat, accepted: nat)
    requires tx.unsent == [] && n <= |tx.queue| && AllSendable(coder, tx.queue) && coder.limit <= accepted
    ensures SentOut(coder, tx, n, Run(coder, tx, Polls(n, accepted)))
  {
    if n > 0 {
      PollsEmptyTheQueue(coder, tx, n - 1, accepted);
      OnePollMore(coder, tx, n, accepted);
      OneMoreIsOut(coder, tx, n, Run(coder, tx, Polls(n - 1, accepted)), accepted);
    } else {
      assert tx.sent + [] == tx.sent && tx.wire + [] == tx.wire;
    }
  }

  lemma OneMoreIsOut<T>(coder: Coder<T>, tx: Tx<T>, n: nat, before: Tx<T>, accepted: nat)
    requires 0 < n <= |tx.queue| && AllSendable(coder, tx.queue) && coder.limit <= accepted
    requires SentOut(coder, tx, n - 1, before)
    ensures SentOut(coder, tx, n, Apply(coder, before, Poll(accepted)))
  {
    assert tx.queue[n - 1..][0] == tx.queue[n - 1] && tx.queue[n - 1..][1..] == tx.queue[n..];
    PollSendsNext(coder, before, tx.queue[n - 1], accepted);
    FramesOfOneMore(coder, tx.queue, n);
    SentOneMore(tx.sent, tx.queue, n);
  }

  lemma OnePollMore<T>(coder: Coder<T>, tx: Tx<T>, n: nat, accepted: nat)
    requires n > 0
    ensures Run(coder, tx, Polls(n, accepted)) == Apply(coder, Run(coder, tx, Polls(n - 1, accepted)), Poll(accepted))
  {
    assert Polls<T>(n, accepted)[..n - 1] == Polls<T>(n - 1, accepted);
  }

  lemma FramesOfOneMore<T>(coder: Coder<T>, queue: seq<T>, n: nat)
    requires 0 < n <= |queue|
    ensures FramesOf(coder, queue[..n]) == FramesOf(coder, queue[..n - 1]) + coder.encode(queue[n - 1])
  {
    assert queue[..n] == queue[..n - 1] + [queue[n - 1]];
    FlatMapAppend(coder.encode, queue[..n - 1], queue[n - 1]);
  }

  lemma SentOneMore<T>(sent: seq<T>, queue: seq<T>, n: nat)
    requires 0 < n <= |queue|
    ensures sent + queue[..n - 1] + [queue[n - 1]] == sent + queue[..n]
  {
    assert queue[..n] == queue[..n - 1] + [queue[n - 1]];
  }

  lemma PollSendsNext<T>(coder: Coder<T>, tx: Tx<T>, m: T, accepted: nat)
    requires tx.unsent == [] && tx.queue != [] && tx.queue[0] == m
    requires |coder.encode(m)| <= coder.limit <= accepted
    ensures var e := Apply(coder, tx, Poll(accepted));
      && e.unsent == [] && e.queue == tx.queue[1..] && e.sent == tx.sent + [m]
      && e.wire == tx.wire + coder.encode(m)
  {
    PollWrites(coder, tx, accepted);
  }

  function Offers<T>(messages: seq<T>): seq<TxOp<T>> {
    seq(|messages|, k requires 0 <= k < |messages| => Enqueue(messages[k]))
  }

  function Newest<T>(s: seq<T>): seq<T> {
    if |s| <= 8 then s else s[|s| - 8..]
  }

  /** The free places of a queue that can take so many messages. */
  function Free(queued: nat, offered: nat): nat {
    if queued >= 8 then 0 else Min(8 - queued, offered)
  }

  /** The first messages have taken the free places; of those behind them the urgent ones got in, and
      the eight newest of all these are left. */
  ghost predicate Filled<T>(urgent: T -> bool, queue: seq<T>, messages: seq<T>,
                            pushed: seq<T>, at: seq<nat>, left: seq<T>)
  {
    var free := Free(|queue|, |messages|);
    && Picks(messages[free..], urgent, (m: T) => m, pushed, at)
    && left == Newest(queue + messages[..free] + pushed)
  }

  /** What becomes of the messages offered between two polls. */
  lemma {:induction false} OffersFillTheQueue<T>(coder: Coder<T>, tx: Tx<T>, messages: seq<T>)
    returns (pushed: seq<T>, at: seq<nat>)
    requires |tx.queue| <= 8
    ensures Filled(coder.urgent, tx.queue, messages, pushed, at, Run(coder, tx, Offers(messages)).queue)
    decreases |messages|
  {
    if |tx.queue| + |messages| <= 8 {
      pushed, at := [], [];
      AllGetIn(coder, tx, messages);
      FilledByFew(coder.urgent, tx.queue, messages);
    } else {
      var init, m := messages[..|messages| - 1], messages[|messages| - 1];
      assert messages == init + [m];
      pushed, at := OffersFillTheQueue(coder, tx, init);
      OneOfferMore(coder, tx, init, m);
      pushed, at := OfferedToFull(coder.urgent, tx.queue, init, m, pushed, at, Run(coder, tx, Offers(init)).queue);
    }
  }

  lemma FilledByFew<T>(urgent: T -> bool, queue: seq<T>, messages: seq<T>)
    requires |queue| + |messages| <= 8
    ensures Filled(urgent, queue, messages, [], [], queue + messages)
  {
    assert messages[..|messages|] == messages && queue + messages + [] == queue + messages;
  }

  lemma {:induction false} AllGetIn<T>(coder: Coder<T>, tx: Tx<T>, messages: seq<T>)
    requires |tx.queue| + |messages| <= 8
    ensures Run(coder, tx, Offers(messages)).queue == tx.queue + messages
    decreases |messages|
  {
    if messages == [] {
      assert tx.queue + messages == tx.queue;
    } else {
      var init, m := messages[..|messages| - 1], messages[|messages| - 1];
      AllGetIn(coder, tx, init);
      OneOfferMore(coder, tx, init, m);
      assert messages == init + [m] && tx.queue + init + [m] == tx.queue + messages;
    }
  }

  lemma OneOfferMore<T>(coder: Coder<T>, tx: Tx<T>, messages: seq<T>, m: T)
    ensures Run(coder, tx, Offers(messages + [m])).queue
         == Offered(Run(coder, tx, Offers(messages)).queue, m, coder.urgent(m))
  {
    assert Offers(messages + [m])[..|messages|] == Offers(messages);
  }

  lemma OfferedToFull<T>(urgent: T -> bool, queue: seq<T>, messages: seq<T>, m: T,
                         pushed: seq<T>, at: seq<nat>, left: seq<T>)
    returns (pushed': seq<T>, at': seq<nat>)
    requires |queue| <= 8 <= |queue| + |messages| && Filled(urgent, queue, messages, pushed, at, left)
    ensures Filled(urgent, queue, messages + [m], pushed', at', Offered(left, m, urgent(m)))
  {
    var free := Free(|queue|, |messages|);
    assert (messages + [m])[free..] == messages[free..] + [m] && (messages + [m])[..free] == messages[..free];
    PicksOneMore(messages[free..], urgent, (m: T) => m, pushed, at, m);
    PushedOut(queue + messages[..free], pushed, m, urgent(m));
    pushed', at' := if urgent(m) then pushed + [m] else pushed, if urgent(m) then at + [|messages[free..]|] else at;
  }

  lemma PushedOut<T>(full: seq<T>, pushed: seq<T>, m: T, urgent: bool)
    requires |full| == 8
    ensures Offered(Newest(full + pushed), m, urgent) == Newest(full + if urgent then pushed + [m] else pushed)
  {
    if urgent {
      assert full + (pushed + [m]) == (full + pushed) + [m];
    }
  }

  ghost predicate HasUrgent<T>(coder: Coder<T>, s: seq<T>) {
    exists i :: 0 <= i < |s| && coder.urgent(s[i])
  }

  /** A queued shutdown request is never pushed out for good: whatever happens next, a
      request is still queued or one has been put on the line since. */
  lemma {:induction false} RequestIsNeverCrowdedOut<T(!new)>(coder: Coder<T>, tx: Tx<T>, ops: seq<TxOp<T>>)
    requires HasUrgent(coder, tx.queue) && |tx.queue| <= QUEUE_CAPACITY
    requires forall m: T :: coder.urgent(m) ==> |coder.encode(m)| <= coder.limit
    ensures var end := Run(coder, tx, ops);
      && |end.queue| <= QUEUE_CAPACITY
      && |tx.sent| <= |end.sent|
      && (HasUrgent(coder, end.queue) || HasUrgent(coder, end.sent[|tx.sent|..]))
    decreases |ops|
  {
    if ops != [] {
      RequestIsNeverCrowdedOut(coder, tx, ops[..|ops| - 1]);
      var before, end := Run(coder, tx, ops[..|ops| - 1]), Run(coder, tx, ops);
      assert end == Apply(coder, before, ops[|ops| - 1]);
      if HasUrgent(coder, before.sent[|tx.sent|..]) {
        var i :| 0 <= i < |before.sent| - |tx.sent| && coder.urgent(before.sent[|tx.sent|..][i]);
        assert coder.urgent(end.sent[|tx.sent|..][i]);
      } else {
        var i :| 0 <= i < |before.queue| && coder.urgent(before.queue[i]);
        if end.queue == before.queue || (|before.queue| < |end.queue|) {
          assert coder.urgent(end.queue[i]);
        } else if ops[|ops| - 1].Enqueue? {
          assert coder.urgent(end.queue[|end.queue| - 1]);
        } else if i > 0 {
          assert coder.urgent(end.queue[i - 1]);
        } else {
          assert coder.urgent(end.sent[|tx.sent|..][|before.sent| - |tx.sent|]);
        }
      }
    }
  }

  /** The device's own messages meet the hypothesis: a shutdown request always fits a frame. */
  lemma ShutdownRequestFits(message: DeviceMessage)
    ensures DEVICE.urgent(message) ==> |DEVICE.encode(message)| <= DEVICE.limit
  {
    FrameIsDelimited(PutMessage(message));
    if message.ShutdownRequested? {
      Cobs.UnstuffOfStuff([0]);
    }
  }
}
