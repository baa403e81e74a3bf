/** The postcard wire format, as far as the link's own messages need it: little-endian
    base-128 integers, length-prefixed UTF-8 strings, and one tag byte for an option. */
module Postcard {
  import opened Common

  /** The bytes of an integer: seven bits each, least significant first, the top bit set on all but the last. */
  function PutVarint(value: nat): (r: seq<Byte>)
    ensures 1 <= |r|
  {
    if value < 128 then [value] else [value % 128 + 128] + PutVarint(value / 128)
  }

  /** The largest value of `bytes` base-128 digits whose last digit is at most `top`. */
  function Capacity(bytes: nat, top: nat): nat
  {
    if bytes <= 1 then top else 128 * Capacity(bytes - 1, top) + 127
  }

  /** Reads an integer of at most `bytes` digits, the last of them at most `top`.
      A longer or larger one is refused; leading zero digits are accepted. */
  function TakeVarint(s: seq<Byte>, bytes: nat, top: nat): (r: Option<(nat, seq<Byte>)>)
    ensures r.Some? ==> |r.value.1| < |s|
    decreases bytes
  {
    if bytes == 0 || s == [] then
      None
    else if s[0] < 128 then
      if bytes == 1 && s[0] > top then None else Some((s[0], s[1..]))
    else
      match TakeVarint(s[1..], bytes - 1, top)
      case None => None
      case Some((high, rest)) => Some((s[0] - 128 + 128 * high, rest))
  }

  const U64_BYTES := 10
  const U64_TOP := 1
  const U32_BYTES := 5
  const U32_TOP := 15

  type U64 = v: int | 0 <= v < 0x1_0000_0000_0000_0000

  lemma {:induction false} VarintRoundTrip(value: nat, bytes: nat, top: nat, rest: seq<Byte>)
    requires 1 <= bytes && top < 128 && value <= Capacity(bytes, top)
    ensures TakeVarint(PutVarint(value) + rest, bytes, top) == Some((value, rest))
    ensures |PutVarint(value)| <= bytes
  {
    var s := PutVarint(value) + rest;
    if value < 128 {
      assert s[1..] == rest;
    } else {
      assert bytes > 1;
      VarintRoundTrip(value / 128, bytes - 1, top, rest);
      assert s[1..] == PutVarint(value / 128) + rest;
    }
  }

  /** Whatever is read back fits the integer type it was read as. */
  lemma {:induction false} TakeVarintInRange(s: seq<Byte>, bytes: nat, top: nat)
    requires 1 <= bytes && top < 128 && TakeVarint(s, bytes, top).Some?
    ensures TakeVarint(s, bytes, top).value.0 <= Capacity(bytes, top)
  {
    if s[0] >= 128 {
      TakeVarintInRange(s[1..], bytes - 1, top);
    } else if bytes > 1 {
      assert Capacity(bytes, top) >= 127;
    }
  }

  /** What base-128 digits say, the least significant first. */
  function ValueOf(digits: seq<Byte>): nat {
    if digits == [] then 0 else digits[0] % 128 + 128 * ValueOf(digits[1..])
  }

  /** The first byte with a clear top bit. */
  ghost predicate EndsAt(s: seq<Byte>, n: nat) {
    n < |s| && s[n] < 128 && forall k :: 0 <= k < n ==> s[k] >= 128
  }

  lemma EndsOneLater(s: seq<Byte>, n: nat)
    requires s != [] && s[0] >= 128
    ensures EndsAt(s, n + 1) <==> EndsAt(s[1..], n)
  {
    assert forall k :: 0 <= k < |s| - 1 ==> s[1..][k] == s[k + 1];
    if EndsAt(s[1..], n) {
      forall k | 0 <= k < n + 1 ensures s[k] >= 128 {
        assert k > 0 ==> s[1..][k - 1] >= 128;
      }
    }
  }

  lemma LowDigit(value: nat)
    ensures (value % 128 + 128) % 128 + 128 * (value / 128) == value
  {
  }

  /** An integer is written as the shortest digits that say it, ended by the one clear top bit. */
  lemma {:induction false} VarintIsItsDigits(value: nat)
    ensures var r := PutVarint(value);
      && EndsAt(r, |r| - 1) && ValueOf(r) == value && (|r| > 1 ==> r[|r| - 1] != 0)
  {
    var r := PutVarint(value);
    if value < 128 {
      assert r[1..] == [];
    } else {
      VarintIsItsDigits(value / 128);
      assert r[1..] == PutVarint(value / 128) && r[0] == value % 128 + 128;
      LowDigit(value);
      EndsOneLater(r, |r| - 2);
    }
  }

  /** The first byte with a clear top bit comes in time, and the last digit is within its bound. */
  ghost predicate Readable(s: seq<Byte>, bytes: nat, top: nat, n: nat) {
    n < bytes && EndsAt(s, n) && (n == bytes - 1 ==> s[n] <= top)
  }

  /** An integer is read exactly if its digits end in time, the last within its bound; then it is
      what they say, and the rest follows them. */
  lemma {:induction false} TakeReadsTheDigits(s: seq<Byte>, bytes: nat, top: nat, n: nat)
    ensures TakeVarint(s, bytes, top).Some? ==> exists m: nat :: Readable(s, bytes, top, m)
    ensures Readable(s, bytes, top, n) ==> TakeVarint(s, bytes, top) == Some((ValueOf(s[..n + 1]), s[n + 1..]))
    decreases bytes
  {
    if bytes > 0 && s != [] {
      if s[0] < 128 {
        LastDigitIsRead(s, bytes, top, n);
      } else {
        TakeReadsTheDigits(s[1..], bytes - 1, top, if n > 0 then n - 1 else 0);
        if TakeVarint(s, bytes, top).Some? {
          var m: nat :| Readable(s[1..], bytes - 1, top, m);
          EndsOneLater(s, m);
          assert Readable(s, bytes, top, m + 1);
        }
        if n > 0 && Readable(s, bytes, top, n) {
          EndsOneLater(s, n - 1);
          assert s[..n + 1][1..] == s[1..][..n] && s[1..][n..] == s[n + 1..];
        }
      }
    }
  }

  lemma LastDigitIsRead(s: seq<Byte>, bytes: nat, top: nat, n: nat)
    requires bytes > 0 && s != [] && s[0] < 128
    ensures TakeVarint(s, bytes, top).Some? ==> Readable(s, bytes, top, 0)
    ensures Readable(s, bytes, top, n) ==> n == 0 && TakeVarint(s, bytes, top) == Some((ValueOf(s[..1]), s[1..]))
  {
    assert s[..1][1..] == [];
  }

  lemma U64Capacity()
    ensures Capacity(U64_BYTES, U64_TOP) == 0xFFFF_FFFF_FFFF_FFFF
  {
    assert Capacity(2, 1) == 255;
    assert Capacity(4, 1) == 0x3F_FFFF;
    assert Capacity(6, 1) == 0xF_FFFF_FFFF;
    assert Capacity(8, 1) == 0x3_FFFF_FFFF_FFFF;
  }

  /** Well-formed UTF-8, as in table 3-7 of the Unicode standard. */
  predicate ValidUtf8(s: seq<Byte>)
  {
    if s == [] then true
    else if s[0] < 0x80 then ValidUtf8(s[1..])
    else if 0xC2 <= s[0] < 0xE0 then |s| >= 2 && Continues(s[1]) && ValidUtf8(s[2..])
    else if 0xE0 <= s[0] < 0xF0 then
      && |s| >= 3 && Continues(s[1]) && Continues(s[2])
      && (s[0] == 0xE0 ==> 0xA0 <= s[1])
      && (s[0] == 0xED ==> s[1] < 0xA0)
      && ValidUtf8(s[3..])
    else
      && 0xF0 <= s[0] < 0xF5 && |s| >= 4 && Continues(s[1]) && Continues(s[2]) && Continues(s[3])
      && (s[0] == 0xF0 ==> 0x90 <= s[1])
      && (s[0] == 0xF4 ==> s[1] < 0x90)
      && ValidUtf8(s[4..])
  }

  predicate Continues(b: Byte) {
    0x80 <= b < 0xC0
  }

  /** A string: UTF-8 whose length fits the length prefix. */
  type Utf8 = s: seq<Byte> | |s| <= 0xFFFF_FFFF_FFFF_FFFF && ValidUtf8(s) witness []

  function PutString(s: Utf8): seq<Byte> {
    PutVarint(|s|) + s
  }

  function TakeString(s: seq<Byte>): (r: Option<(Utf8, seq<Byte>)>)
    ensures r.Some? ==> |r.value.1| < |s|
  {
    match TakeVarint(s, U64_BYTES, U64_TOP)
    case None => None
    case Some((length, rest)) =>
      if length <= |rest| && ValidUtf8(rest[..length]) then
        U64Capacity();
        TakeVarintInRange(s, U64_BYTES, U64_TOP);
        Some((rest[..length], rest[length..]))
      else
        None
  }

  lemma StringRoundTrip(text: Utf8, rest: seq<Byte>)
    ensures TakeString(PutString(text) + rest) == Some((text, rest))
  {
    U64Capacity();
    VarintRoundTrip(|text|, U64_BYTES, U64_TOP, text + rest);
    assert PutString(text) + rest == PutVarint(|text|) + (text + rest);
    assert (text + rest)[..|text|] == text && (text + rest)[|text|..] == rest;
  }

  function PutOption<T>(value: Option<T>, put: T -> seq<Byte>): seq<Byte> {
    match value
    case None => [0]
    case Some(v) => [1] + put(v)
  }

  function TakeOption<T>(s: seq<Byte>, take: seq<Byte> -> Option<(T, seq<Byte>)>): Option<(Option<T>, seq<Byte>)>
  {
    if s == [] then None
    else if s[0] == 0 then Some((None, s[1..]))
    else if s[0] == 1 then
      match take(s[1..])
      case None => None
      case Some((v, rest)) => Some((Some(v), rest))
    else None
  }

  lemma OptionRoundTrip<T>(value: Option<T>, put: T -> seq<Byte>, take: seq<Byte> -> Option<(T, seq<Byte>)>,
                           rest: seq<Byte>)
    requires value.Some? ==> take(put(value.value) + rest) == Some((value.value, rest))
    ensures TakeOption(PutOption(value, put) + rest, take) == Some((value, rest))
  {
    var s := PutOption(value, put) + rest;
    match value
    case None => assert s[1..] == rest;
    case Some(v) => assert s[1..] == put(v) + rest;
  }

  function PutU64(value: U64): seq<Byte> {
    PutVarint(value)
  }

  function TakeU64(s: seq<Byte>): Option<(U64, seq<Byte>)>
  {
    match TakeVarint(s, U64_BYTES, U64_TOP)
    case None => None
    case Some((v, rest)) => 
      U64Capacity();
      TakeVarintInRange(s, U64_BYTES, U64_TOP);
      Some((v, rest))
  }

  lemma U64RoundTrip(value: U64, rest: seq<Byte>)
    ensures TakeU64(PutU64(value) + rest) == Some((value, rest))
    ensures |PutU64(value)| <= U64_BYTES
  {
    U64Capacity();
    VarintRoundTrip(value, U64_BYTES, U64_TOP, rest);
  }
}
