/** Cutting a byte stream into zero-delimited frames, one byte at a time and in a fixed
    buffer, and joining a stream in the middle of a frame. */
module FrameDecoding {
  import opened Common
  import opened Cobs
  import opened Protocol

  /** The bytes of the unfinished frame, or the mark that it is already too long. */
  datatype DecoderState = DecoderState(held: seq<Byte>, discarding: bool)

  const FRESH := DecoderState([], false)

  type Event = Result<seq<Byte>>

  /** One pushed byte, for a buffer of `capacity` bytes. */
  function Step(capacity: nat, st: DecoderState, byte: Byte): (DecoderState, seq<Event>)
  {
    if byte == 0 then
      if st.discarding then (FRESH, [Err(FrameTooLong)])
      else if st.held == [] then (st, [Err(EmptyFrame)])
      else (FRESH, [Ok(st.held + [0])])
    else if st.discarding then (st, [])
    else if capacity == 0 || |st.held| >= capacity - 1 then (DecoderState([], true), [])
    else (DecoderState(st.held + [byte], false), [])
  }

  function After(capacity: nat, st: DecoderState, stream: seq<Byte>): DecoderState
    decreases |stream|
  {
    if stream == [] then st else After(capacity, Step(capacity, st, stream[0]).0, stream[1..])
  }

  function Events(capacity: nat, st: DecoderState, stream: seq<Byte>): seq<Event>
    decreases |stream|
  {
    if stream == [] then []
    else Step(capacity, st, stream[0]).1 + Events(capacity, Step(capacity, st, stream[0]).0, stream[1..])
  }

  class FrameDecoder {
    const bytes: array<Byte>
    var len: nat
    var discarding: bool

    ghost predicate Valid()
      reads this
    {
      && (len == 0 || len < bytes.Length)
      && (discarding ==> len == 0)
    }

    ghost function State(): DecoderState
      reads this, bytes
      requires Valid()
    {
      DecoderState(bytes[..len], discarding)
    }

    constructor (capacity: nat)
      ensures Valid() && fresh(bytes) && bytes.Length == capacity && State() == FRESH
    {
      bytes := new Byte[capacity];
      len, discarding := 0, false;
    }

    /** Adds one byte. A complete frame is left in `bytes[..n]` for decoding in place. */
    method Push(byte: Byte) returns (r: Option<Result<nat>>)
      requires Valid()
      modifies this, bytes
      ensures Valid()
      ensures var next := Step(bytes.Length, old(State()), byte);
        && State() == next.0
        && match r
           case None => next.1 == []
           case Some(Err(e)) => next.1 == [Err(e)]
           case Some(Ok(n)) => n <= bytes.Length && next.1 == [Ok(bytes[..n])]
    {
      if byte == 0 {
        if discarding {
          discarding, len := false, 0;
          return Some(Err(FrameTooLong));
        }
        if len == 0 {
          return Some(Err(EmptyFrame));
        }
        ghost var held := bytes[..len];
        bytes[len] := 0;
        var frameLen := len + 1;
        len := 0;
        assert bytes[..frameLen] == held + [0];
        return Some(Ok(frameLen));
      }
      if discarding {
        return None;
      }
      // One byte stays reserved so that the delimiter fits behind the frame.
      if bytes.Length == 0 || len >= bytes.Length - 1 {
        discarding, len := true, 0;
        return None;
      }
      ghost var held := bytes[..len];
      bytes[len] := byte;
      len := len + 1;
      assert bytes[..len] == held + [byte];
      return None;
    }
  }

  /** The pieces of a stream that a zero ends. */
  function Segments(stream: seq<Byte>): seq<seq<Byte>>
    decreases |stream|
  {
    var first := UpToZero(stream);
    if |first| == |stream| then [] else [first] + Segments(stream[|first| + 1..])
  }

  /** What follows the last zero of a stream. */
  function Tail(stream: seq<Byte>): seq<Byte>
    decreases |stream|
  {
    var first := UpToZero(stream);
    if |first| == |stream| then stream else Tail(stream[|first| + 1..])
  }

  /** What a segment is for a buffer of `capacity` bytes: empty, fitting or too long. */
  function Classify(capacity: nat, segment: seq<Byte>): Event
  {
    if segment == [] then Err(EmptyFrame)
    else if |segment| < capacity then Ok(segment + [0])
    else Err(FrameTooLong)
  }

  function ClassifyAll(capacity: nat, segments: seq<seq<Byte>>): seq<Event> {
    seq(|segments|, i requires 0 <= i < |segments| => Classify(capacity, segments[i]))
  }

  /** The decoder after the zero-free start of a segment. */
  function Holding(capacity: nat, partial: seq<Byte>): DecoderState
  {
    if partial != [] && |partial| >= capacity then DecoderState([], true) else DecoderState(partial, false)
  }

  lemma {:induction false} RunSplits(capacity: nat, st: DecoderState, a: seq<Byte>, b: seq<Byte>)
    ensures Events(capacity, st, a + b) == Events(capacity, st, a) + Events(capacity, After(capacity, st, a), b)
    ensures After(capacity, st, a + b) == After(capacity, After(capacity, st, a), b)
    decreases |a|
  {
    if a == [] {
      assert a + b == b;
    } else {
      assert (a + b)[1..] == a[1..] + b;
      RunSplits(capacity, Step(capacity, st, a[0]).0, a[1..], b);
    }
  }

  lemma {:induction false} RunZeroFree(capacity: nat, partial: seq<Byte>, more: seq<Byte>)
    requires 0 !in more
    ensures Events(capacity, Holding(capacity, partial), more) == []
    ensures After(capacity, Holding(capacity, partial), more) == Holding(capacity, partial + more)
    decreases |more|
  {
    if more == [] {
      assert partial + more == partial;
    } else {
      assert more[0] in more;
      assert Step(capacity, Holding(capacity, partial), more[0]) == (Holding(capacity, partial + [more[0]]), []);
      RunZeroFree(capacity, partial + [more[0]], more[1..]);
      assert partial + [more[0]] + more[1..] == partial + more;
    }
  }

  /** One whole segment yields its classification and leaves a fresh decoder. */
  lemma RunSegment(capacity: nat, segment: seq<Byte>, rest: seq<Byte>)
    requires 0 !in segment
    ensures Events(capacity, FRESH, segment + [0] + rest)
         == [Classify(capacity, segment)] + Events(capacity, FRESH, rest)
    ensures After(capacity, FRESH, segment + [0] + rest) == After(capacity, FRESH, rest)
  {
    var held := Holding(capacity, segment);
    assert Holding(capacity, []) == FRESH;
    RunZeroFree(capacity, [], segment);
    assert [] + segment == segment;
    assert segment + [0] + rest == segment + ([0] + rest);
    RunSplits(capacity, FRESH, segment, [0] + rest);
    assert ([0] + rest)[1..] == rest;
    assert Step(capacity, held, 0) == (FRESH, [Classify(capacity, segment)]);
  }

  /** For every stream and every buffer size the decoder reports exactly the classified
      segments of the stream, and remembers exactly the unfinished one. */
  lemma {:induction false} DecoderRefinesSplitting(capacity: nat, stream: seq<Byte>)
    ensures Events(capacity, FRESH, stream) == ClassifyAll(capacity, Segments(stream))
    ensures After(capacity, FRESH, stream) == Holding(capacity, Tail(stream))
    decreases |stream|
  {
    var first := UpToZero(stream);
    if |first| == |stream| {
      RunZeroFree(capacity, [], stream);
      assert [] + stream == stream;
    } else {
      var rest := stream[|first| + 1..];
      assert stream == first + [0] + rest;
      RunSegment(capacity, first, rest);
      DecoderRefinesSplitting(capacity, rest);
      ClassifyAllCons(capacity, first, Segments(rest));
    }
  }

  lemma ClassifyAllCons(capacity: nat, first: seq<Byte>, rest: seq<seq<Byte>>)
    ensures ClassifyAll(capacity, [first] + rest) == [Classify(capacity, first)] + ClassifyAll(capacity, rest)
  {
  }

  /** Zero-free bodies, each followed by its delimiter. */
  function Delimited(bodies: seq<seq<Byte>>): seq<Byte>
  {
    if bodies == [] then [] else bodies[0] + [0] + Delimited(bodies[1..])
  }

  ghost predicate ZeroFree(bodies: seq<seq<Byte>>) {
    forall i :: 0 <= i < |bodies| ==> 0 !in bodies[i]
  }

  lemma {:induction false} EventsOfDelimited(capacity: nat, bodies: seq<seq<Byte>>, partial: seq<Byte>)
    requires ZeroFree(bodies) && 0 !in partial
    ensures Events(capacity, FRESH, Delimited(bodies) + partial) == ClassifyAll(capacity, bodies)
  {
    if bodies == [] {
      RunZeroFree(capacity, [], partial);
      assert Delimited(bodies) + partial == partial;
    } else {
      var rest := Delimited(bodies[1..]) + partial;
      EventsOfDelimited(capacity, bodies[1..], partial);
      RunSegment(capacity, bodies[0], rest);
      ClassifyAllCons(capacity, bodies[0], bodies[1..]);
      assert Delimited(bodies) + partial == bodies[0] + [0] + rest;
    }
  }

  /** A receiver that joins a stream anywhere: it waits for the next delimiter. */
  function EventsAfterJoin(capacity: nat, stream: seq<Byte>): seq<Event>
  {
    var skipped := UpToZero(stream);
    if |skipped| == |stream| then [] else Events(capacity, FRESH, stream[|skipped| + 1..])
  }

  lemma JoinSkips(capacity: nat, stream: seq<Byte>)
    requires stream != [] && stream[0] != 0
    ensures EventsAfterJoin(capacity, stream) == EventsAfterJoin(capacity, stream[1..])
  {
    var skipped := UpToZero(stream[1..]);
    assert UpToZero(stream) == [stream[0]] + skipped;
    if |skipped| < |stream| - 1 {
      assert stream[|skipped| + 2..] == stream[1..][|skipped| + 1..];
    }
  }

  /** How many of these bodies start at or before byte `k` of their stream. */
  function StartedBy(bodies: seq<seq<Byte>>, k: nat): (n: nat)
    ensures n <= |bodies|
  {
    if bodies == [] then 0
    else 1 + if k <= |bodies[0]| then 0 else StartedBy(bodies[1..], k - |bodies[0]| - 1)
  }

  lemma JoinInsideFrame(capacity: nat, body: seq<Byte>, rest: seq<Byte>, k: nat)
    requires 0 !in body && k <= |body|
    ensures EventsAfterJoin(capacity, (body + [0] + rest)[k..]) == Events(capacity, FRESH, rest)
  {
    var stream := (body + [0] + rest)[k..];
    assert stream == body[k..] + [0] + rest;
    UpToZeroOfTerminated(body[k..], rest);
    assert stream[|body| - k + 1..] == rest;
  }

  lemma DropFirst(body: seq<Byte>, rest: seq<Byte>, k: nat)
    requires |body| + 1 <= k <= |body| + 1 + |rest|
    ensures (body + [0] + rest)[k..] == rest[k - |body| - 1..]
  {
  }

  /** Joining at any byte loses the frame it falls into and nothing else. */
  lemma {:induction false} JoinAnywhere(capacity: nat, bodies: seq<seq<Byte>>, partial: seq<Byte>, k: nat)
    requires ZeroFree(bodies) && 0 !in partial && k <= |Delimited(bodies) + partial|
    ensures EventsAfterJoin(capacity, (Delimited(bodies) + partial)[k..])
         == ClassifyAll(capacity, bodies[StartedBy(bodies, k)..])
  {
    var stream := Delimited(bodies) + partial;
    if bodies == [] {
      assert stream == partial;
      UpToZeroOfZeroFree(partial[k..]);
    } else {
      var others := bodies[1..];
      var rest := Delimited(others) + partial;
      assert stream == bodies[0] + [0] + rest;
      if k <= |bodies[0]| {
        JoinInsideFrame(capacity, bodies[0], rest, k);
        EventsOfDelimited(capacity, others, partial);
      } else {
        DropFirst(bodies[0], rest, k);
        JoinAnywhere(capacity, others, partial, k - |bodies[0]| - 1);
        assert others[StartedBy(others, k - |bodies[0]| - 1)..] == bodies[StartedBy(bodies, k)..];
      }
    }
  }

  /** Whatever state garbage left behind, the next zero restores a fresh decoder. */
  lemma ResynchronisesAtZero(capacity: nat, st: DecoderState, garbage: seq<Byte>, rest: seq<Byte>)
    requires st.held == [] || !st.discarding
    ensures Events(capacity, st, garbage + [0] + rest)
         == Events(capacity, st, garbage + [0]) + Events(capacity, FRESH, rest)
  {
    RunSplits(capacity, st, garbage + [0], rest);
    RunSplits(capacity, st, garbage, [0]);
    DecoderStaysClean(capacity, st, garbage);
    var dirty := After(capacity, st, garbage);
    assert After(capacity, dirty, [0]) == After(capacity, Step(capacity, dirty, 0).0, []) == FRESH;
  }

  lemma {:induction false} DecoderStaysClean(capacity: nat, st: DecoderState, stream: seq<Byte>)
    requires st.held == [] || !st.discarding
    ensures var end := After(capacity, st, stream); end.held == [] || !end.discarding
    decreases |stream|
  {
    if stream != [] {
      DecoderStaysClean(capacity, Step(capacity, st, stream[0]).0, stream[1..]);
    }
  }
}
