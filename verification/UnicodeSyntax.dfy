/**
  Which bytes stand for which code points, in both directions (dCommon/GeneralUtils.cpp).

  The patterns are those of section 3 of RFC 3629 and the pairs those of section 2.1 of RFC 2781, written out
  independently of the conversion.  The decoder also takes longer forms than needed and numbers too large for a code
  point.
 */
module UnicodeSyntax {
  import opened Basics
  import opened Unicode

  // ----- encoding

  // The two units for a code point of more than 16 bits.
  function Pair(cp: nat): (units: seq<Unit>)
    requires 0x1_0000 <= cp <= 0x10_FFFF
    ensures |units| == 2 && IsLeadSurrogate(units[0]) && IsTrailSurrogate(units[1])
  {
    [0xD800 + (cp - 0x1_0000) / 0x400, 0xDC00 + (cp - 0x1_0000) % 0x400]
  }

  // A pair is encoded as its code point, with all of its bits.
  lemma PairIsEncoded(cp: nat, rest: seq<Unit>)
    requires 0x1_0000 <= cp <= 0x10_FFFF
    ensures Encode(Pair(cp) + rest) == Pattern(4, cp) + Encode(rest)
  {
    var s := Pair(cp) + rest;
    assert s[0] == Pair(cp)[0] && s[1] == Pair(cp)[1] && s[2..] == rest;
    assert PairValue(s[0], s[1]) == cp;
    Utf8IsPattern(cp);
  }

  // Any other unit is encoded as itself, unpaired surrogates too.
  lemma UnitIsEncoded(unit: Unit, rest: seq<Unit>)
    requires !(IsLeadSurrogate(unit) && rest != [] && IsTrailSurrogate(rest[0]))
    ensures var n := if unit < 0x80 then 1 else if unit < 0x800 then 2 else 3;
      Encode([unit] + rest) == Pattern(n, unit) + Encode(rest)
  {
    assert ([unit] + rest)[1..] == rest;
    Utf8IsPattern(unit);
  }

  lemma SameFront(s: seq<Unit>, t: seq<Unit>)
    requires s != [] && t != [] && NextUtf16(s).cp == NextUtf16(t).cp
    ensures NextUtf16(s) == NextUtf16(t) && s[..NextUtf16(s).length] == t[..NextUtf16(s).length]
  {
    if StartsWithPair(s) && StartsWithPair(t) {
      var a: int, b: int, c: int, d: int := s[0] - 0xD800, s[1] - 0xDC00, t[0] - 0xD800, t[1] - 0xDC00;
      assert a * 1024 + b == c * 1024 + d;
      assert a == c && b == d;
    }
  }

  // No two 16-bit strings have one encoding, so all that is lost is lost in decoding.
  lemma {:induction false} EncodeIsInjective(s: seq<Unit>, t: seq<Unit>)
    requires Encode(s) == Encode(t)
    ensures s == t
    decreases |s|
  {
    if s != [] && t != [] {
      var d, e := NextUtf16(s), NextUtf16(t);
      NextOfUtf8(d.cp, Encode(s[d.length..]));
      NextOfUtf8(e.cp, Encode(t[e.length..]));
      SameFront(s, t);
      assert Encode(s)[|Utf8(d.cp)|..] == Encode(s[d.length..]);
      assert Encode(t)[|Utf8(e.cp)|..] == Encode(t[e.length..]);
      EncodeIsInjective(s[d.length..], t[e.length..]);
      assert s == s[..d.length] + s[d.length..] && t == t[..d.length] + t[d.length..];
    }
  }

  // ----- patterns

  // How much fits into n bytes.
  function Capacity(n: nat): nat {
    match n case 1 => 0x80 case 2 => 0x800 case 3 => 0x1_0000 case 4 => 0x20_0000 case _ => 0
  }

  // The bytes of the n-byte form: a marker with the high bits, then six bits in each byte.
  function Pattern(n: nat, cp: nat): (bytes: seq<Byte>)
    requires 1 <= n <= 4 && cp < Capacity(n)
    ensures |bytes| == n
  {
    match n
    case 1 => [cp]
    case 2 => [0xC0 + cp / 0x40, 0x80 + cp % 0x40]
    case 3 => [0xE0 + cp / 0x1000, 0x80 + cp / 0x40 % 0x40, 0x80 + cp % 0x40]
    case 4 => [0xF0 + cp / 0x4_0000, 0x80 + cp / 0x1000 % 0x40, 0x80 + cp / 0x40 % 0x40, 0x80 + cp % 0x40]
  }

  // The shortest form that has room.
  lemma Utf8IsPattern(cp: nat)
    requires cp <= 0x10_FFFF
    ensures Utf8(cp) == Pattern(if cp < 0x80 then 1 else if cp < 0x800 then 2 else if cp < 0x1_0000 then 3 else 4, cp)
  {
  }

  lemma NextOfPattern(n: nat, cp: nat, rest: seq<Byte>)
    requires 1 <= n <= 4 && cp < Capacity(n)
    ensures NextUtf8Char(Pattern(n, cp) + rest) == Decoded(cp, n)
  {
    if n == 3 {
      assert cp / 0x40 / 0x40 == cp / 0x1000;
    } else if n == 4 {
      assert cp / 0x40 / 0x40 == cp / 0x1000 && cp / 0x1000 / 0x40 == cp / 0x4_0000;
    }
  }

  // ----- decoding

  // A form is decoded as its number if it is a code point: one unit, or a pair with the low eight of the ten high bits.
  lemma FormIsDecoded(n: nat, cp: nat, rest: seq<Byte>)
    requires 1 <= n <= 4 && cp < Capacity(n)
    ensures cp < 0x1_0000 ==> Decode(Pattern(n, cp) + rest) == [cp] + Decode(rest)
    ensures 0x1_0000 <= cp < 0x5_0000 ==> Decode(Pattern(n, cp) + rest) == Pair(cp) + Decode(rest)
    ensures 0x5_0000 <= cp <= 0x10_FFFF ==>
      Decode(Pattern(n, cp) + rest) == Pair((cp - 0x1_0000) % 0x4_0000 + 0x1_0000) + Decode(rest)
    ensures cp > 0x10_FFFF ==> Decode(Pattern(n, cp) + rest) == [0xFFFD] + Decode(rest)
  {
    FormIsRead(n, cp, rest);
    if 0x1_0000 <= cp <= 0x10_FFFF {
      FoldedPair(cp - 0x1_0000);
    }
  }

  lemma FormIsRead(n: nat, cp: nat, rest: seq<Byte>)
    requires 1 <= n <= 4 && cp < Capacity(n)
    ensures Decode(Pattern(n, cp) + rest) == Utf16(cp) + Decode(rest)
  {
    NextOfPattern(n, cp, rest);
    assert (Pattern(n, cp) + rest)[n..] == rest;
  }

  lemma FoldedPair(x: nat)
    ensures x % 0x4_0000 / 0x400 == x / 0x400 % 0x100 && x % 0x4_0000 % 0x400 == x % 0x400
  {
    var q, r := x / 0x4_0000, x % 0x4_0000;
    assert x == q * 0x4_0000 + r;
    assert x / 0x400 == q * 0x100 + r / 0x400;
  }

  ghost predicate StartsWithForm(b: seq<Byte>) {
    exists n: nat, cp: nat :: 1 <= n <= 4 && n <= |b| && cp < Capacity(n) && b[..n] == Pattern(n, cp)
  }

  lemma ReadIsForm(b: seq<Byte>)
    requires b != [] && NextUtf8Char(b) != Decoded(0xFFFD, 1)
    ensures StartsWithForm(b)
  {
    var d := NextUtf8Char(b);
    if d.length == 2 {
      assert d.cp / 0x40 == b[0] - 0xC0 && d.cp % 0x40 == b[1] - 0x80;
    } else if d.length == 3 {
      FieldsOfThree(b[0] - 0xE0, b[1] - 0x80, b[2] - 0x80, d.cp);
    } else if d.length == 4 {
      FieldsOfFour(b[0] - 0xF0, b[1] - 0x80, b[2] - 0x80, b[3] - 0x80, d.cp);
    }
    assert b[..d.length] == Pattern(d.length, d.cp);
  }

  lemma FieldsOfThree(a: int, b: int, c: int, cp: nat)
    requires 0 <= a && 0 <= b < 64 && 0 <= c < 64 && cp == a * 4096 + b * 64 + c
    ensures cp / 0x1000 == a && cp / 0x40 % 0x40 == b && cp % 0x40 == c
  {
    assert cp / 64 == a * 64 + b;
  }

  lemma FieldsOfFour(a: int, b: int, c: int, d: int, cp: nat)
    requires 0 <= a && 0 <= b < 64 && 0 <= c < 64 && 0 <= d < 64 && cp == a * 0x4_0000 + b * 4096 + c * 64 + d
    ensures cp / 0x4_0000 == a && cp / 0x1000 % 0x40 == b && cp / 0x40 % 0x40 == c && cp % 0x40 == d
  {
    assert cp / 64 == a * 4096 + b * 64 + c;
    assert cp / 4096 == a * 64 + b;
  }

  // A byte with which no form starts is replaced, and decoding goes on with the next byte.
  lemma OtherByteIsReplaced(b: seq<Byte>)
    requires b != [] && !StartsWithForm(b)
    ensures Decode(b) == [0xFFFD] + Decode(b[1..])
  {
    if NextUtf8Char(b) != Decoded(0xFFFD, 1) {
      ReadIsForm(b);
    }
    assert Utf16(0xFFFD) == [0xFFFD];
  }
}
