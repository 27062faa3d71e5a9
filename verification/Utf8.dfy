/** The UTF-8 check that parsing makes on strings, against the definition of UTF-8 in section 3 of RFC 3629. */
module Utf8 {
  import opened Bytes

  predicate Continuation(b: byte) { 0x80 <= b < 0xc0 }

  /** The length of the character at the front, or 0 if there is none; section 4 of RFC 3629. */
  function CharLength(s: bytes): (n: nat)
    ensures n <= |s|
  {
    if s == [] then 0
    else if s[0] < 0x80 then 1
    else if |s| < 2 || !Continuation(s[1]) then 0
    else if 0xc2 <= s[0] < 0xe0 then 2
    else if |s| < 3 || !Continuation(s[2]) then 0
    else if 0xe0 <= s[0] < 0xf0 then
      if (s[0] == 0xe0 && s[1] < 0xa0) || (s[0] == 0xed && s[1] >= 0xa0) then 0 else 3
    else if |s| < 4 || !Continuation(s[3]) then 0
    else if 0xf0 <= s[0] < 0xf5 then
      if (s[0] == 0xf0 && s[1] < 0x90) || (s[0] == 0xf4 && s[1] >= 0x90) then 0 else 4
    else 0
  }

  predicate ValidUtf8(s: bytes)
    decreases |s|
  {
    s == [] || (CharLength(s) > 0 && ValidUtf8(s[CharLength(s)..]))
  }

  /// The definition: a code point is written in one to four bytes, by its size

  /** The code points that UTF-8 can write: up to 0x10ffff, without the surrogates. */
  predicate Scalar(c: int) {
    0 <= c <= 0x10_ffff && !(0xd800 <= c <= 0xdfff)
  }

  function Encoded(c: int): (r: bytes)
    requires Scalar(c)
    ensures 1 <= |r| <= 4
  {
    if c <= 0x7f then [c]
    else if c <= 0x7ff then [0xc0 + c / 0x40, 0x80 + c % 0x40]
    else if c <= 0xffff then [0xe0 + c / 0x1000, 0x80 + c / 0x40 % 0x40, 0x80 + c % 0x40]
    else [0xf0 + c / 0x4_0000, 0x80 + c / 0x1000 % 0x40, 0x80 + c / 0x40 % 0x40, 0x80 + c % 0x40]
  }

  predicate Scalars(cs: seq<int>) {
    forall i :: 0 <= i < |cs| ==> Scalar(cs[i])
  }

  function EncodedAll(cs: seq<int>): bytes
    requires Scalars(cs)
  {
    if cs == [] then [] else Encoded(cs[0]) + EncodedAll(cs[1..])
  }

  /// The check accepts what the definition writes

  lemma FrontOfEncoded(c: int, tail: bytes)
    requires Scalar(c)
    ensures CharLength(Encoded(c) + tail) == |Encoded(c)|
  {
    var s := Encoded(c) + tail;
    assert s[0] == Encoded(c)[0];
    if c > 0x7f { assert s[1] == Encoded(c)[1]; }
    if c > 0x7ff { assert s[2] == Encoded(c)[2]; }
    if c > 0xffff { assert s[3] == Encoded(c)[3]; }
  }

  lemma {:induction false} EncodedIsValid(cs: seq<int>)
    requires Scalars(cs)
    ensures ValidUtf8(EncodedAll(cs))
    decreases |cs|
  {
    hide CharLength, Encoded;
    if cs != [] {
      var front, tail := Encoded(cs[0]), EncodedAll(cs[1..]);
      FrontOfEncoded(cs[0], tail);
      assert (front + tail)[|front|..] == tail;
      EncodedIsValid(cs[1..]);
    }
  }

  /// And nothing else

  /** The number with the given digits to the base 64. */
  function Digits(a: int, b: int, c: int, d: int): int {
    a * 0x4_0000 + b * 0x1000 + c * 0x40 + d
  }

  /** The code point whose encoding is at the front. */
  function Decoded(s: bytes): int
    requires CharLength(s) > 0
  {
    match CharLength(s)
    case 1 => s[0]
    case 2 => Digits(0, 0, s[0] - 0xc0, s[1] - 0x80)
    case 3 => Digits(0, s[0] - 0xe0, s[1] - 0x80, s[2] - 0x80)
    case _ => Digits(s[0] - 0xf0, s[1] - 0x80, s[2] - 0x80, s[3] - 0x80)
  }

  lemma DigitsOf(a: int, b: int, c: int, d: int)
    requires 0 <= a && 0 <= b < 0x40 && 0 <= c < 0x40 && 0 <= d < 0x40
    ensures
      var n := Digits(a, b, c, d);
      && n % 0x40 == d && n / 0x40 == a * 0x1000 + b * 0x40 + c && n / 0x40 % 0x40 == c
      && n / 0x1000 == a * 0x40 + b && n / 0x1000 % 0x40 == b && n / 0x4_0000 == a
  {
    var n := Digits(a, b, c, d);
    assert n == (a * 0x1000 + b * 0x40 + c) * 0x40 + d;
    assert n == (a * 0x40 + b) * 0x1000 + (c * 0x40 + d);
    assert n == a * 0x4_0000 + (b * 0x1000 + c * 0x40 + d);
  }

  lemma FrontIsEncoded(s: bytes)
    requires CharLength(s) > 0
    ensures Scalar(Decoded(s)) && Encoded(Decoded(s)) == s[..CharLength(s)]
  {
    match CharLength(s)
    case 1 =>
    case 2 => TwoBytes(s);
    case 3 => ThreeBytes(s);
    case _ => FourBytes(s);
  }

  lemma TwoBytes(s: bytes)
    requires CharLength(s) == 2
    ensures Scalar(Decoded(s)) && Encoded(Decoded(s)) == s[..2]
  {
    DigitsOf(0, 0, s[0] - 0xc0, s[1] - 0x80);
  }

  lemma ThreeBytes(s: bytes)
    requires CharLength(s) == 3
    ensures Scalar(Decoded(s)) && Encoded(Decoded(s)) == s[..3]
  {
    var a: int, b: int, c: int := s[0] - 0xe0, s[1] - 0x80, s[2] - 0x80;
    DigitsOf(0, a, b, c);
    assert 0x800 <= Digits(0, a, b, c) <= 0xffff;
    assert a == 0xd ==> Digits(0, a, b, c) < 0xd800;
    assert a >= 0xe ==> Digits(0, a, b, c) > 0xdfff;
  }

  lemma FourBytes(s: bytes)
    requires CharLength(s) == 4
    ensures Scalar(Decoded(s)) && Encoded(Decoded(s)) == s[..4]
  {
    var a: int, b: int, c: int, d: int := s[0] - 0xf0, s[1] - 0x80, s[2] - 0x80, s[3] - 0x80;
    DigitsOf(a, b, c, d);
    assert 0x1_0000 <= Digits(a, b, c, d) <= 0x10_ffff;
  }

  function DecodedAll(s: bytes): seq<int>
    requires ValidUtf8(s)
    decreases |s|
  {
    if s == [] then [] else [Decoded(s)] + DecodedAll(s[CharLength(s)..])
  }

  lemma {:induction false} ValidIsEncoded(s: bytes)
    requires ValidUtf8(s)
    ensures Scalars(DecodedAll(s)) && EncodedAll(DecodedAll(s)) == s
    decreases |s|
  {
    hide CharLength, Encoded, Decoded, Scalar;
    if s != [] {
      var n := CharLength(s);
      FrontIsEncoded(s);
      ValidIsEncoded(s[n..]);
      var cs := DecodedAll(s);
      assert cs[0] == Decoded(s) && cs[1..] == DecodedAll(s[n..]);
      assert s == s[..n] + s[n..];
    }
  }

  /** The check accepts a string if and only if it is the encoding of some code points. */
  lemma ValidUtf8Iff(s: bytes)
    ensures ValidUtf8(s) <==> exists cs :: Scalars(cs) && s == EncodedAll(cs)
  {
    hide ValidUtf8, EncodedAll, Scalars;
    if ValidUtf8(s) {
      ValidIsEncoded(s);
    }
    if cs :| Scalars(cs) && s == EncodedAll(cs) {
      EncodedIsValid(cs);
    }
  }

  lemma DigitsSum(n: nat)
    ensures n == Digits(n / 0x4_0000, n / 0x1000 % 0x40, n / 0x40 % 0x40, n % 0x40)
  {
    assert n / 0x40 / 0x40 == n / 0x1000 && n / 0x1000 / 0x40 == n / 0x4_0000;
  }

  lemma DecodedFront(c: int, tail: bytes)
    requires Scalar(c)
    ensures CharLength(Encoded(c) + tail) > 0 && Decoded(Encoded(c) + tail) == c
  {
    FrontOfEncoded(c, tail);
    DigitsSum(c);
    var r, s := Encoded(c), Encoded(c) + tail;
    assert s[0] == r[0] && (|r| > 1 ==> s[1] == r[1]) && (|r| > 2 ==> s[2] == r[2]) && (|r| > 3 ==> s[3] == r[3]);
    hide CharLength;
    assert |r| == 3 ==> c / 0x1000 % 0x40 == c / 0x1000;
    assert |r| == 2 ==> c / 0x40 % 0x40 == c / 0x40;
  }

  /** And it determines them. */
  lemma {:induction false} DecodingIsUnique(cs: seq<int>)
    requires Scalars(cs)
    ensures ValidUtf8(EncodedAll(cs)) && DecodedAll(EncodedAll(cs)) == cs
    decreases |cs|
  {
    hide CharLength, Encoded, Decoded, Scalar;
    EncodedIsValid(cs);
    if cs != [] {
      var front, tail := Encoded(cs[0]), EncodedAll(cs[1..]);
      FrontOfEncoded(cs[0], tail);
      DecodedFront(cs[0], tail);
      assert (front + tail)[|front|..] == tail;
      DecodingIsUnique(cs[1..]);
    }
  }
}
