/** Consistent Overhead Byte Stuffing (Cheshire and Baker, IEEE/ACM Transactions on
    Networking, 1999), the zero-free frame body used by the serial link.

    `Stuff` and `Unstuff` say what the byte strings are; the two methods work on the
    caller's buffer the way the link does: the encoder patches the length code of a
    block after its bytes were pushed, the decoder overwrites the frame it reads. */
module Cobs {
  import opened Common

  /** A block holds at most this many bytes; its code byte is then 255 and no zero follows. */
  const MAX_RUN := 254

  /** A block of zero-free bytes behind its code: one more than their number. */
  function Block(run: seq<Byte>): (r: seq<Byte>)
    requires |run| <= MAX_RUN
    ensures |r| == |run| + 1 && r[0] == |run| + 1 && r[1..] == run
  {
    [|run| + 1] + run
  }

  /** Encodes `rest` when the zero-free bytes `run` are already in the open block. */
  function StuffFrom(rest: seq<Byte>, run: seq<Byte>): (r: seq<Byte>)
    requires |run| < MAX_RUN
    ensures |run| + 1 <= |r|
    decreases |rest|
  {
    if rest == [] then
      Block(run)
    else if rest[0] == 0 then
      Block(run) + StuffFrom(rest[1..], [])
    else if |run| + 1 == MAX_RUN then
      Block(run + [rest[0]]) + StuffFrom(rest[1..], [])
    else
      StuffFrom(rest[1..], run + [rest[0]])
  }

  function Stuff(payload: seq<Byte>): seq<Byte> {
    StuffFrom(payload, [])
  }

  /** Decodes a zero-free body; a zero is restored between blocks, except after a full one. */
  function Unstuff(body: seq<Byte>): Option<seq<Byte>>
  {
    if body == [] then
      Some([])
    else if body[0] == 0 || body[0] > |body| then
      None
    else
      var code := body[0];
      match Unstuff(body[code..])
      case None => None
      case Some(tail) =>
        Some(body[1..code] + (if code != MAX_RUN + 1 && code < |body| then [0] else []) + tail)
  }

  /** The part of a buffer before its first zero. */
  function UpToZero(s: seq<Byte>): (r: seq<Byte>)
    ensures |r| <= |s| && r == s[..|r|] && 0 !in r
    ensures |r| < |s| ==> s[|r|] == 0
  {
    if s == [] || s[0] == 0 then [] else [s[0]] + UpToZero(s[1..])
  }

  lemma {:induction false} UpToZeroOfTerminated(body: seq<Byte>, rest: seq<Byte>)
    requires 0 !in body
    ensures UpToZero(body + [0] + rest) == body
  {
    var s := body + [0] + rest;
    if body != [] {
      assert s[0] == body[0];
      assert s[1..] == body[1..] + [0] + rest;
      UpToZeroOfTerminated(body[1..], rest);
    }
  }

  lemma {:induction false} UpToZeroOfZeroFree(body: seq<Byte>)
    requires 0 !in body
    ensures UpToZero(body) == body
  {
    if body != [] {
      UpToZeroOfZeroFree(body[1..]);
    }
  }

  /** A stuffed body never contains the frame delimiter. */
  lemma {:induction false} StuffFromIsZeroFree(rest: seq<Byte>, run: seq<Byte>)
    requires |run| < MAX_RUN && 0 !in run
    ensures 0 !in StuffFrom(rest, run)
    decreases |rest|
  {
    if rest != [] {
      if rest[0] == 0 || |run| + 1 == MAX_RUN {
        StuffFromIsZeroFree(rest[1..], []);
      } else {
        StuffFromIsZeroFree(rest[1..], run + [rest[0]]);
      }
    }
  }

  /** At most one byte of overhead for every block of 254 bytes, and one more. */
  lemma {:induction false} StuffFromLength(rest: seq<Byte>, run: seq<Byte>)
    requires |run| < MAX_RUN
    ensures |run| + |rest| + 1 <= |StuffFrom(rest, run)| <= |run| + |rest| + 1 + (|run| + |rest|) / MAX_RUN
    ensures |run| + |rest| < MAX_RUN ==> |StuffFrom(rest, run)| == |run| + |rest| + 1
    decreases |rest|
  {
    if rest != [] {
      if rest[0] == 0 || |run| + 1 == MAX_RUN {
        StuffFromLength(rest[1..], []);
      } else {
        StuffFromLength(rest[1..], run + [rest[0]]);
      }
    }
  }

  /** Decoding one block and the blocks behind it. */
  lemma UnstuffBlock(run: seq<Byte>, tail: seq<Byte>)
    requires |run| <= MAX_RUN && Unstuff(tail).Some?
    ensures Unstuff(Block(run) + tail)
         == Some(run + (if |run| < MAX_RUN && tail != [] then [0] else []) + Unstuff(tail).value)
  {
    var body := Block(run) + tail;
    assert body[0] == |run| + 1;
    assert body[1..|run| + 1] == run && body[|run| + 1..] == tail;
  }

  lemma {:induction false} UnstuffOfStuffFrom(rest: seq<Byte>, run: seq<Byte>)
    requires |run| < MAX_RUN
    ensures Unstuff(StuffFrom(rest, run)) == Some(run + rest)
    decreases |rest|
  {
    if rest == [] {
      UnstuffBlock(run, []);
      assert Block(run) + [] == Block(run);
      assert run + [] + [] == run + rest;
    } else if rest[0] == 0 {
      UnstuffOfStuffFrom(rest[1..], []);
      UnstuffBlock(run, StuffFrom(rest[1..], []));
      assert run + [0] + ([] + rest[1..]) == run + rest;
    } else if |run| + 1 == MAX_RUN {
      UnstuffOfStuffFrom(rest[1..], []);
      UnstuffBlock(run + [rest[0]], StuffFrom(rest[1..], []));
      assert run + [rest[0]] + [] + ([] + rest[1..]) == run + rest;
    } else {
      UnstuffOfStuffFrom(rest[1..], run + [rest[0]]);
      assert run + [rest[0]] + rest[1..] == run + rest;
    }
  }

  /** The round trip, for every payload of every length. */
  lemma UnstuffOfStuff(payload: seq<Byte>)
    ensures Unstuff(Stuff(payload)) == Some(payload)
    ensures 0 !in Stuff(payload)
    ensures |payload| + 1 <= |Stuff(payload)| <= |payload| + 1 + |payload| / MAX_RUN
    ensures |payload| < MAX_RUN ==> |Stuff(payload)| == |payload| + 1
  {
    UnstuffOfStuffFrom(payload, []);
    StuffFromIsZeroFree(payload, []);
    StuffFromLength(payload, []);
    assert [] + payload == payload;
  }

  /** The encoder's buffer from `start`: finished blocks, then a code byte still to be
      patched at `codeAt`, then the bytes of the open block. */
  ghost predicate Encoding(output: array<Byte>, start: nat, codeAt: nat, closed: seq<Byte>, run: seq<Byte>)
    reads output
  {
    && |run| < MAX_RUN
    && start <= codeAt < codeAt + 1 + |run| <= output.Length
    && output[start..codeAt] == closed
    && output[codeAt + 1..codeAt + 1 + |run|] == run
  }

  /** Patches the code of the open block and starts the next one behind it. */
  method FinishBlock(output: array<Byte>, ghost start: nat, codeAt: nat, at: nat, ghost closed: seq<Byte>,
                     ghost run: seq<Byte>)
    requires |run| <= MAX_RUN && start <= codeAt && at == codeAt + 1 + |run| < output.Length
    requires output[start..codeAt] == closed && output[codeAt + 1..at] == run
    modifies output
    ensures Encoding(output, start, at, closed + Block(run), [])
    ensures output[..start] == old(output[..start])
  {
    output[codeAt] := at - codeAt;
    assert output[start..codeAt] == closed && output[codeAt + 1..at] == run;
    assert output[start..at] == output[start..codeAt] + ([output[codeAt]] + output[codeAt + 1..at]);
  }

  /** The finished blocks and the open run after one more payload byte. */
  ghost function Pushed(closed: seq<Byte>, run: seq<Byte>, byte: Byte): (next: (seq<Byte>, seq<Byte>))
    requires |run| < MAX_RUN
    ensures |next.1| < MAX_RUN
  {
    if byte == 0 then (closed + Block(run), [])
    else if |run| + 1 == MAX_RUN then (closed + Block(run + [byte]), [])
    else (closed, run + [byte])
  }

  /** Pushes one payload byte, or refuses when the buffer is full. */
  method PushByte(output: array<Byte>, ghost start: nat, codeAt: nat, at: nat, byte: Byte, ghost closed: seq<Byte>,
                  ghost run: seq<Byte>)
    returns (ok: bool, nextCodeAt: nat, nextAt: nat)
    requires Encoding(output, start, codeAt, closed, run) && at == codeAt + 1 + |run|
    modifies output
    ensures output[..start] == old(output[..start])
    ensures var next := Pushed(closed, run, byte);
            if ok then
              Encoding(output, start, nextCodeAt, next.0, next.1) && nextAt == nextCodeAt + 1 + |next.1|
            else
              output.Length <= start + |next.0| + |next.1|
  {
    if at == output.Length {
      return false, codeAt, at;
    }
    if byte == 0 {
      FinishBlock(output, start, codeAt, at, closed, run);
      return true, at, at + 1;
    }
    output[at] := byte;
    assert output[start..codeAt] == closed && output[codeAt + 1..at + 1] == run + [byte];
    if at + 1 - codeAt < MAX_RUN + 1 {
      return true, codeAt, at + 1;
    }
    if at + 1 == output.Length {
      return false, codeAt, at;
    }
    FinishBlock(output, start, codeAt, at + 1, closed, run + [byte]);
    return true, at + 1, at + 2;
  }

  /** Patches the last code byte and pushes the delimiter. */
  method Finalize(output: array<Byte>, ghost start: nat, codeAt: nat, at: nat, ghost closed: seq<Byte>,
                  ghost run: seq<Byte>)
    requires Encoding(output, start, codeAt, closed, run) && at == codeAt + 1 + |run| < output.Length
    modifies output
    ensures output[..start] == old(output[..start])
    ensures output[start..at + 1] == closed + Block(run) + [0]
  {
    ghost var before := output[..];
    output[codeAt] := at - codeAt;
    output[at] := 0;
    ghost var after := output[..];
    assert after == before[codeAt := |run| + 1][at := 0];
    assert after[start..at + 1] == before[start..codeAt] + ([|run| + 1] + before[codeAt + 1..at]) + [0];
  }

  /** Pushes the stuffed payload and its delimiter into `output` from index `start`.
      Succeeds exactly when both fit, and returns the index after the delimiter. */
  method StuffInto(payload: seq<Byte>, output: array<Byte>, start: nat) returns (end: Option<nat>)
    requires start <= output.Length
    modifies output
    ensures end.Some? <==> start + |Stuff(payload)| + 1 <= output.Length
    ensures end.Some? ==> end.value == start + |Stuff(payload)| + 1
    ensures end.Some? ==> output[start..end.value] == Stuff(payload) + [0]
    ensures output[..start] == old(output[..start])
  {
    if start == output.Length {
      return None;
    }
    var codeAt: nat, at: nat := start, start + 1;
    ghost var closed, run: seq<Byte> := [], [];
    var i := 0;
    assert Emitted(payload, 0, closed, run) by {
      assert payload[0..] == payload;
    }
    while i < |payload|
      invariant i <= |payload| && at == codeAt + 1 + |run|
      invariant Encoding(output, start, codeAt, closed, run)
      invariant Emitted(payload, i, closed, run)
      invariant output[..start] == old(output[..start])
    {
      EmittedStep(payload, i, closed, run);
      ghost var next := Pushed(closed, run, payload[i]);
      var ok;
      ok, codeAt, at := PushByte(output, start, codeAt, at, payload[i], closed, run);
      closed, run, i := next.0, next.1, i + 1;
      if !ok {
        return None;
      }
    }
    if at == output.Length {
      return None;
    }
    EmittedAtEnd(payload, closed, run);
    Finalize(output, start, codeAt, at, closed, run);
    end := Some(at + 1);
  }

  /** After `i` bytes the finished blocks and the open one account for the whole payload. */
  ghost predicate Emitted(payload: seq<Byte>, i: nat, closed: seq<Byte>, run: seq<Byte>)
    requires i <= |payload| && |run| < MAX_RUN
    ensures Emitted(payload, i, closed, run) ==> |closed| + |run| + 1 <= |Stuff(payload)|
  {
    closed + StuffFrom(payload[i..], run) == Stuff(payload)
  }

  lemma EmittedStep(payload: seq<Byte>, i: nat, closed: seq<Byte>, run: seq<Byte>)
    requires i < |payload| && |run| < MAX_RUN && Emitted(payload, i, closed, run)
    ensures var next := Pushed(closed, run, payload[i]); Emitted(payload, i + 1, next.0, next.1)
  {
    assert payload[i..][0] == payload[i] && payload[i..][1..] == payload[i + 1..];
    if payload[i] == 0 {
      StuffAssociates(closed, Block(run), StuffFrom(payload[i + 1..], []));
    } else if |run| + 1 == MAX_RUN {
      StuffAssociates(closed, Block(run + [payload[i]]), StuffFrom(payload[i + 1..], []));
    }
  }

  lemma EmittedAtEnd(payload: seq<Byte>, closed: seq<Byte>, run: seq<Byte>)
    requires |run| < MAX_RUN && Emitted(payload, |payload|, closed, run)
    ensures closed + Block(run) == Stuff(payload)
  {
  }

  lemma StuffAssociates(a: seq<Byte>, b: seq<Byte>, c: seq<Byte>)
    ensures a + (b + c) == a + b + c
  {
  }

  /** The index of the first zero of `buffer[lo..hi]`, or `hi` when there is none. */
  method FindZero(buffer: array<Byte>, lo: nat, hi: nat) returns (end: nat)
    requires lo <= hi <= buffer.Length
    ensures lo <= end <= hi
    ensures buffer[lo..end] == UpToZero(buffer[lo..hi])
  {
    end := lo;
    while end < hi && buffer[end] != 0
      invariant lo <= end <= hi
      invariant 0 !in buffer[lo..end]
    {
      end := end + 1;
    }
    if end < hi {
      UpToZeroOfTerminated(buffer[lo..end], buffer[end + 1..hi]);
      assert buffer[lo..hi] == buffer[lo..end] + [0] + buffer[end + 1..hi];
    } else {
      UpToZeroOfZeroFree(buffer[lo..end]);
    }
  }

  /** Moves `count` bytes down to `dest`, front to back. */
  method CopyDown(buffer: array<Byte>, source: nat, dest: nat, count: nat)
    requires dest < source && source + count <= buffer.Length
    modifies buffer
    ensures buffer[..dest] == old(buffer[..dest])
    ensures buffer[dest..dest + count] == old(buffer[source..source + count])
    ensures buffer[source + count..] == old(buffer[source + count..])
  {
    for k := 0 to count
      invariant buffer[..dest] == old(buffer[..dest])
      invariant buffer[dest..dest + k] == old(buffer[source..source + k])
      invariant buffer[source + k..] == old(buffer[source + k..])
    {
      assert buffer[source + k] == buffer[source + k..][0];
      buffer[dest + k] := buffer[source + k];
    }
  }

  /** The block at `source` has moved down to `dest`; what is in front of that and what follows
      the block is as it was. */
  ghost predicate BlockDecoded(before: seq<Byte>, after: seq<Byte>, source: nat, dest: nat, nextDest: nat, end: nat)
    requires dest <= source < end <= |before| && 0 < before[source] && source + before[source] <= end
  {
    && |after| == |before| && dest <= nextDest <= source + before[source]
    && after[..dest] == before[..dest]
    && after[dest..nextDest] == DecodedBlock(before[source..end])
    && after[source + before[source]..] == before[source + before[source]..]
  }

  /** Decodes the block at `source` down to `dest`. */
  method DecodeBlock(buffer: array<Byte>, source: nat, dest: nat, end: nat) returns (nextDest: nat)
    requires dest <= source < end <= buffer.Length
    requires 0 < buffer[source] && source + buffer[source] <= end
    modifies buffer
    ensures BlockDecoded(old(buffer[..]), buffer[..], source, dest, nextDest, end)
  {
    var code: nat := buffer[source];
    ghost var rest := buffer[source..end];
    SliceOfSlice(buffer[..], source, end, 1, code);
    CopyDown(buffer, source + 1, dest, code - 1);
    nextDest := dest + code - 1;
    assert buffer[dest..nextDest] == rest[1..code];
    if code != MAX_RUN + 1 && source + code < end {
      buffer[nextDest] := 0;
      nextDest := nextDest + 1;
      assert buffer[dest..nextDest] == rest[1..code] + [0];
    }
  }

  /** A buffer while `body` is decoded over itself: output below `dest`, unread bytes
      from `source` on, and the output never ahead of the input. */
  ghost predicate Decoding(contents: seq<Byte>, lo: nat, source: nat, dest: nat, end: nat, body: seq<Byte>)
  {
    && lo <= dest <= source <= end <= |contents|
    && 0 !in contents[source..end]
    && DecodesTo(body, contents[source..end], contents[lo..dest])
  }

  /** Decodes one block and checks that it is whole. */
  method DecodeNext(buffer: array<Byte>, lo: nat, source: nat, dest: nat, end: nat, ghost body: seq<Byte>)
    returns (ok: bool, nextSource: nat, nextDest: nat)
    requires Decoding(buffer[..], lo, source, dest, end, body) && source < end
    modifies buffer
    ensures buffer[..lo] == old(buffer[..lo])
    ensures ok ==> Decoding(buffer[..], lo, nextSource, nextDest, end, body) && source < nextSource
    ensures !ok ==> Unstuff(body) == None
  {
    ghost var before := buffer[..];
    BlockIsWhole(before, lo, source, dest, end, body);
    var code: nat := buffer[source];
    if source + code > end {
      return false, source, dest;
    }
    ok, nextSource := true, source + code;
    nextDest := DecodeBlock(buffer, source, dest, end);
    DecodingStep(before, buffer[..], lo, source, dest, nextDest, end, body);
  }

  /** Decodes all blocks of `buffer[lo..end]` over themselves. */
  method DecodeBlocks(buffer: array<Byte>, lo: nat, end: nat) returns (ok: bool, dest: nat)
    requires lo <= end <= buffer.Length && 0 !in buffer[lo..end]
    modifies buffer
    ensures buffer[..lo] == old(buffer[..lo])
    ensures ok ==> lo <= dest <= end && Unstuff(old(buffer[lo..end])) == Some(buffer[lo..dest])
    ensures !ok ==> Unstuff(old(buffer[lo..end])) == None
  {
    ghost var body := buffer[lo..end];
    var source: nat := lo;
    ok, dest := true, lo;
    DecodingBegins(buffer[..], lo, end, body);
    while source < end
      invariant Decoding(buffer[..], lo, source, dest, end, body)
      invariant buffer[..lo] == old(buffer[..lo])
    {
      ok, source, dest := DecodeNext(buffer, lo, source, dest, end, body);
      if !ok {
        return;
      }
    }
    ok := true;
    DecodingEnds(buffer[..], lo, dest, end, body);
  }

  /** Decodes the frame body in `buffer[lo..hi]` over itself, reading up to its first zero.
      Every write lands below the unread bytes, so none is lost. */
  method UnstuffInPlace(buffer: array<Byte>, lo: nat, hi: nat) returns (size: Option<nat>)
    requires lo <= hi <= buffer.Length
    modifies buffer
    ensures match Unstuff(UpToZero(old(buffer[lo..hi])))
            case None => size == None
            case Some(decoded) =>
              && size == Some(|decoded|) && lo + |decoded| <= hi
              && buffer[lo..lo + |decoded|] == decoded
    ensures buffer[..lo] == old(buffer[..lo])
  {
    var end := FindZero(buffer, lo, hi);
    var ok, dest := DecodeBlocks(buffer, lo, end);
    return if ok then Some(dest - lo) else None;
  }

  lemma BlockIsWhole(contents: seq<Byte>, lo: nat, source: nat, dest: nat, end: nat, body: seq<Byte>)
    requires Decoding(contents, lo, source, dest, end, body) && source < end
    ensures contents[source] != 0
    ensures source + contents[source] > end ==> Unstuff(body) == None
  {
    var rest := contents[source..end];
    assert rest[0] == contents[source] && rest[0] in rest;
  }

  lemma DecodingBegins(contents: seq<Byte>, lo: nat, end: nat, body: seq<Byte>)
    requires lo <= end <= |contents| && body == contents[lo..end] && 0 !in body
    ensures Decoding(contents, lo, lo, lo, end, body)
  {
    assert Unstuff(body).Some? ==> contents[lo..lo] + Unstuff(body).value == Unstuff(body).value;
  }

  lemma DecodingEnds(contents: seq<Byte>, lo: nat, dest: nat, end: nat, body: seq<Byte>)
    requires Decoding(contents, lo, end, dest, end, body)
    ensures Unstuff(body) == Some(contents[lo..dest])
  {
    assert contents[end..end] == [] && contents[lo..dest] + [] == contents[lo..dest];
  }

  lemma DecodingStep(before: seq<Byte>, after: seq<Byte>, lo: nat, source: nat, dest: nat, nextDest: nat, end: nat,
                     body: seq<Byte>)
    requires Decoding(before, lo, source, dest, end, body) && source < end
    requires 0 < before[source] && source + before[source] <= end
    requires BlockDecoded(before, after, source, dest, nextDest, end)
    ensures Decoding(after, lo, source + before[source], nextDest, end, body)
    ensures after[..lo] == before[..lo]
  {
    var code, rest := before[source], before[source..end];
    Rejoin(before, after, lo, source, code, dest, nextDest, end);
    DecodesToStep(body, rest, before[lo..dest]);
  }

  /** The slices of the buffer around a decoded block. */
  lemma Rejoin(before: seq<Byte>, after: seq<Byte>, lo: nat, source: nat, code: nat, dest: nat, nextDest: nat, end: nat)
    requires lo <= dest <= source < source + code <= end <= |before| == |after| && dest <= nextDest <= |before|
    requires after[..dest] == before[..dest] && after[source + code..] == before[source + code..]
    ensures after[..lo] == before[..lo]
    ensures after[lo..nextDest] == before[lo..dest] + after[dest..nextDest]
    ensures after[source + code..end] == before[source..end][code..]
    ensures 0 !in before[source..end] ==> 0 !in after[source + code..end]
  {
    SliceOfSlice(after, 0, dest, 0, lo);
    SliceOfSlice(before, 0, dest, 0, lo);
    SliceOfSlice(after, 0, dest, lo, dest);
    SliceOfSlice(before, 0, dest, lo, dest);
    assert after[lo..nextDest] == after[lo..dest] + after[dest..nextDest];
    SliceOfSlice(after, source + code, |after|, 0, end - source - code);
    SliceOfSlice(before, source + code, |before|, 0, end - source - code);
    SliceOfSlice(before, source, end, code, end - source);
    assert before[source..end][code..] == before[source..end][code..end - source];
  }

  lemma SliceOfSlice(s: seq<Byte>, lo: nat, hi: nat, i: nat, j: nat)
    requires i <= j && lo + j <= hi <= |s|
    ensures s[lo..hi][i..j] == s[lo + i..lo + j]
  {
    var inner, outer := s[lo..hi][i..j], s[lo + i..lo + j];
    assert |inner| == |outer|;
    forall k | 0 <= k < |inner|
      ensures inner[k] == outer[k]
    {
      assert inner[k] == s[lo..hi][i + k] == s[lo + i + k];
    }
  }

  /** `done` is what the blocks before `rest` decode to. */
  ghost predicate DecodesTo(body: seq<Byte>, rest: seq<Byte>, done: seq<Byte>) {
    Unstuff(body) == match Unstuff(rest)
                     case None => None
                     case Some(tail) => Some(done + tail)
  }

  ghost function DecodedBlock(rest: seq<Byte>): seq<Byte>
    requires rest != [] && 0 < rest[0] <= |rest|
  {
    rest[1..rest[0]] + if rest[0] != MAX_RUN + 1 && rest[0] < |rest| then [0] else []
  }

  lemma DecodesToStep(body: seq<Byte>, rest: seq<Byte>, done: seq<Byte>)
    requires rest != [] && 0 < rest[0] <= |rest| && DecodesTo(body, rest, done)
    ensures DecodesTo(body, rest[rest[0]..], done + DecodedBlock(rest))
  {
    if Unstuff(rest[rest[0]..]).Some? {
      StuffAssociates(done, DecodedBlock(rest), Unstuff(rest[rest[0]..]).value);
    }
  }
}
