/** Well-formed UTF-8 is exactly what encoding Unicode scalar values yields. */
module Utf8Text {
  import opened Common
  import opened Postcard

  type Scalar = c: int | 0 <= c < 0xD800 || 0xE000 <= c < 0x11_0000

  /** One scalar value in one to four bytes, as few as it takes. */
  function Encoded(c: Scalar): seq<Byte>
  {
    if c < 0x80 then [c]
    else if c < 0x800 then [0xC0 + c / 64, 0x80 + c % 64]
    else if c < 0x1_0000 then [0xE0 + c / 4096, 0x80 + c / 64 % 64, 0x80 + c % 64]
    else [0xF0 + c / 262_144, 0x80 + c / 4096 % 64, 0x80 + c / 64 % 64, 0x80 + c % 64]
  }

  const ENCODED: Scalar -> seq<Byte> := (c: Scalar) => Encoded(c)

  function Text(scalars: seq<Scalar>): seq<Byte> {
    FlatMap(ENCODED, scalars)
  }

  lemma EncodedIsValid(c: Scalar, rest: seq<Byte>)
    ensures ValidUtf8(Encoded(c) + rest) <==> ValidUtf8(rest)
  {
    var s := Encoded(c) + rest;
    if c < 0x80 {
      assert s[1..] == rest;
    } else if c < 0x800 {
      assert s[2..] == rest;
    } else if c < 0x1_0000 {
      ThreeBytes(c);
      assert s[3..] == rest;
    } else {
      FourBytes(c);
      assert s[4..] == rest;
    }
  }

  lemma ThreeBytes(c: Scalar)
    requires 0x800 <= c < 0x1_0000
    ensures c / 4096 == 0 ==> c / 64 % 64 >= 0x20
    ensures c / 4096 == 13 ==> c / 64 % 64 < 0x20
  {
    assert c / 64 == c / 4096 * 64 + c / 64 % 64;
    if c / 4096 == 0 {
      assert c / 64 >= 0x20;
    } else if c / 4096 == 13 {
      assert c < 0xE000;
      assert c / 64 < 0x360;
    }
  }

  lemma FourBytes(c: Scalar)
    requires 0x1_0000 <= c
    ensures 0 <= c / 262_144 <= 4
    ensures c / 262_144 == 0 ==> c / 4096 % 64 >= 0x10
    ensures c / 262_144 == 4 ==> c / 4096 % 64 < 0x10
  {
    assert c / 4096 == c / 262_144 * 64 + c / 4096 % 64;
    assert 0x10 <= c / 4096 < 0x110;
  }

  lemma {:induction false} TextIsValid(scalars: seq<Scalar>)
    ensures ValidUtf8(Text(scalars))
  {
    if scalars != [] {
      TextIsValid(scalars[1..]);
      EncodedIsValid(scalars[0], Text(scalars[1..]));
    }
  }

  /** The scalar value that a well-formed text begins with. */
  lemma FirstScalar(s: seq<Byte>) returns (c: Scalar, rest: seq<Byte>)
    requires s != [] && ValidUtf8(s)
    ensures s == Encoded(c) + rest && ValidUtf8(rest) && |rest| < |s|
  {
    if s[0] < 0x80 {
      c, rest := s[0], s[1..];
    } else if s[0] < 0xE0 {
      c := Two(s[0], s[1]);
      rest := s[2..];
    } else if s[0] < 0xF0 {
      c := Three(s[0], s[1], s[2]);
      rest := s[3..];
    } else {
      c := Four(s[0], s[1], s[2], s[3]);
      rest := s[4..];
    }
  }

  lemma Two(a: Byte, b: Byte) returns (c: Scalar)
    requires 0xC2 <= a < 0xE0 && Continues(b)
    ensures Encoded(c) == [a, b]
  {
    c := (a - 0xC0) * 64 + (b - 0x80);
  }

  lemma Three(a: Byte, b: Byte, d: Byte) returns (c: Scalar)
    requires 0xE0 <= a < 0xF0 && Continues(b) && Continues(d)
    requires (a == 0xE0 ==> 0xA0 <= b) && (a == 0xED ==> b < 0xA0)
    ensures Encoded(c) == [a, b, d]
  {
    var n := (a - 0xE0) * 4096 + (b - 0x80) * 64 + (d - 0x80);
    assert n / 64 == (a - 0xE0) * 64 + (b - 0x80) && n % 64 == d - 0x80;
    assert n / 4096 == a - 0xE0 && n / 64 % 64 == b - 0x80;
    c := n;
  }

  lemma Four(a: Byte, b: Byte, d: Byte, e: Byte) returns (c: Scalar)
    requires 0xF0 <= a < 0xF5 && Continues(b) && Continues(d) && Continues(e)
    requires (a == 0xF0 ==> 0x90 <= b) && (a == 0xF4 ==> b < 0x90)
    ensures Encoded(c) == [a, b, d, e]
  {
    var n := (a - 0xF0) * 262_144 + (b - 0x80) * 4096 + (d - 0x80) * 64 + (e - 0x80);
    assert n / 64 == (a - 0xF0) * 4096 + (b - 0x80) * 64 + (d - 0x80) && n % 64 == e - 0x80;
    assert n / 4096 == (a - 0xF0) * 64 + (b - 0x80) && n / 64 % 64 == d - 0x80;
    assert n / 262_144 == a - 0xF0 && n / 4096 % 64 == b - 0x80;
    c := n;
  }

  lemma {:induction false} ValidIsText(s: seq<Byte>) returns (scalars: seq<Scalar>)
    requires ValidUtf8(s)
    ensures s == Text(scalars)
    decreases |s|
  {
    if s == [] {
      scalars := [];
    } else {
      var c, rest := FirstScalar(s);
      var others := ValidIsText(rest);
      scalars := [c] + others;
      assert scalars[1..] == others;
    }
  }

  /** A byte string is accepted as a string exactly if it is the encoding of some scalar values. */
  lemma Utf8IsEncodedScalars(s: seq<Byte>)
    ensures ValidUtf8(s) <==> exists scalars :: s == Text(scalars)
  {
    if ValidUtf8(s) {
      var scalars := ValidIsText(s);
    }
    if exists scalars :: s == Text(scalars) {
      var scalars :| s == Text(scalars);
      TextIsValid(scalars);
    }
  }
}
