/**
  Conversion between UTF-8 and UTF-16 (dCommon/GeneralUtils.cpp).

  Bit fields are written arithmetically: `x / 64 % 64` is the field (x >> 6) & 0x3F, and masking off marker
  bits that a guard has just found set is subtracting them.
 */
module Unicode {
  import opened Basics

  type Unit = x: int | 0 <= x < 0x1_0000

  const REPLACEMENT_CHARACTER: Unit := 0xFFFD
  const MAX_CODE_POINT: nat := 0x10_FFFF

  predicate IsLeadSurrogate(c: int) {
    0xD800 <= c <= 0xDBFF
  }

  predicate IsTrailSurrogate(c: int) {
    0xDC00 <= c <= 0xDFFF
  }

  predicate IsSuffixChar(c: Byte) {
    0x80 <= c <= 0xBF
  }

  // The payload of a suffix byte.
  function Low6(c: Byte): (v: int)
    requires IsSuffixChar(c)
    ensures 0 <= v < 64
  {
    c - 0x80
  }

  function Suffix(v: int): (c: Byte)
    requires 0 <= v < 64
    ensures IsSuffixChar(c) && Low6(c) == v
  {
    0x80 + v
  }

  function Min(a: nat, b: nat): nat {
    if a < b then a else b
  }

  // ----- one code point

  // The bytes that are appended for a code point.
  function Utf8(cp: nat): (bytes: seq<Byte>)
    requires cp <= MAX_CODE_POINT
    ensures 1 <= |bytes| <= 4
  {
    if cp <= 0x7F then [cp]
    else if cp <= 0x7FF then [0xC0 + cp / 64, Suffix(cp % 64)]
    else if cp <= 0xFFFF then [0xE0 + cp / 4096, Suffix(cp / 64 % 64), Suffix(cp % 64)]
    else [0xF0 + cp / 0x4_0000, Suffix(cp / 4096 % 64), Suffix(cp / 64 % 64), Suffix(cp % 64)]
  }

  datatype Decoded = Decoded(cp: nat, length: nat)

  // The code point at the front of a non-empty slice and the number of bytes it takes.
  function NextUtf8Char(slice: seq<Byte>): (d: Decoded)
    requires slice != []
    ensures 1 <= d.length <= |slice|
    ensures d.cp < 0x20_0000
  {
    var rem := |slice|;
    var first: int := slice[0];
    var invalid := Decoded(REPLACEMENT_CHARACTER, 1);
    if first < 0x80 then Decoded(first, 1)
    else if first < 0xC0 then invalid
    else if first < 0xE0 then
      if rem > 1 && IsSuffixChar(slice[1]) then Decoded((first - 0xC0) * 64 + Low6(slice[1]), 2)
      else invalid
    else if first < 0xF0 then
      if rem > 2 && IsSuffixChar(slice[1]) && IsSuffixChar(slice[2]) then
        Decoded((first - 0xE0) * 4096 + Low6(slice[1]) * 64 + Low6(slice[2]), 3)
      else invalid
    else if first < 0xF8 then
      if rem > 3 && IsSuffixChar(slice[1]) && IsSuffixChar(slice[2]) && IsSuffixChar(slice[3]) then
        Decoded((first - 0xF0) * 0x4_0000 + Low6(slice[1]) * 4096 + Low6(slice[2]) * 64 + Low6(slice[3]), 4)
      else invalid
    else invalid
  }

  // The units that are pushed for a code point.  Only eight of the ten high bits of a supplementary code
  // point survive.
  function Utf16(cp: nat): (units: seq<Unit>)
    ensures 1 <= |units| <= 2
  {
    if cp < 0x1_0000 then [cp]
    else if cp > MAX_CODE_POINT then [REPLACEMENT_CHARACTER]
    else [0xD800 + (cp - 0x1_0000) / 1024 % 256, 0xDC00 + (cp - 0x1_0000) % 1024]
  }

  function PairValue(lead: Unit, trail: Unit): (cp: nat)
    requires IsLeadSurrogate(lead) && IsTrailSurrogate(trail)
    ensures 0x1_0000 <= cp <= MAX_CODE_POINT
  {
    0x1_0000 + (lead - 0xD800) * 1024 + (trail - 0xDC00)
  }

  lemma NextOfThreeBytes(cp: nat, rest: seq<Byte>)
    requires 0x7FF < cp <= 0xFFFF
    ensures NextUtf8Char(Utf8(cp) + rest) == Decoded(cp, 3)
  {
    assert cp / 64 / 64 == cp / 4096;
    assert cp == cp / 4096 * 4096 + cp / 64 % 64 * 64 + cp % 64;
  }

  lemma NextOfFourBytes(cp: nat, rest: seq<Byte>)
    requires 0xFFFF < cp <= MAX_CODE_POINT
    ensures NextUtf8Char(Utf8(cp) + rest) == Decoded(cp, 4)
  {
    assert cp / 64 / 64 == cp / 4096;
    assert cp / 4096 / 64 == cp / 0x4_0000;
    assert cp == cp / 0x4_0000 * 0x4_0000 + cp / 4096 % 64 * 4096 + cp / 64 % 64 * 64 + cp % 64;
  }

  lemma NextOfUtf8(cp: nat, rest: seq<Byte>)
    requires cp <= MAX_CODE_POINT
    ensures NextUtf8Char(Utf8(cp) + rest) == Decoded(cp, |Utf8(cp)|)
  {
    if cp > 0xFFFF {
      NextOfFourBytes(cp, rest);
    } else if cp > 0x7FF {
      NextOfThreeBytes(cp, rest);
    }
  }

  // ----- whole strings

  predicate StartsWithPair(s: seq<Unit>) {
    |s| > 1 && IsLeadSurrogate(s[0]) && IsTrailSurrogate(s[1])
  }

  // The code point at the front of a unit string; an unpaired surrogate stands for itself.
  function NextUtf16(s: seq<Unit>): (d: Decoded)
    requires s != []
    ensures 1 <= d.length <= |s| && d.cp <= MAX_CODE_POINT
  {
    if StartsWithPair(s) then Decoded(PairValue(s[0], s[1]), 2) else Decoded(s[0], 1)
  }

  function Encode(s: seq<Unit>): seq<Byte> {
    if s == [] then [] else
      var d := NextUtf16(s);
      Utf8(d.cp) + Encode(s[d.length..])
  }

  function CodePoints(b: seq<Byte>): (cps: seq<nat>)
    ensures |cps| <= |b|
  {
    if b == [] then [] else
      var d := NextUtf8Char(b);
      [d.cp] + CodePoints(b[d.length..])
  }

  function Units(cps: seq<nat>): seq<Unit> {
    if cps == [] then [] else Utf16(cps[0]) + Units(cps[1..])
  }

  function Decode(b: seq<Byte>): seq<Unit> {
    Units(CodePoints(b))
  }

  method Utf16ToWtf8(text: seq<Unit>, size: nat) returns (ret: seq<Byte>)
    ensures ret == Encode(text[..Min(size, |text|)])
  {
    var newSize := Min(size, |text|);
    ghost var s := text[..newSize];
    ret := [];
    var i := 0;
    while i < newSize
      invariant i <= newSize
      invariant ret + Encode(s[i..]) == Encode(s)
    {
      ghost var d := NextUtf16(s[i..]);
      EncodeFrom(ret, s, i);
      var u := text[i];
      if IsLeadSurrogate(u) && i + 1 < newSize {
        var next := text[i + 1];
        if IsTrailSurrogate(next) {
          i := i + 1;
          ret := ret + Utf8(PairValue(u, next));
        } else {
          ret := ret + Utf8(u);
        }
      } else {
        ret := ret + Utf8(u);
      }
      i := i + 1;
    }
  }

  lemma EncodeFrom(done: seq<Byte>, s: seq<Unit>, i: nat)
    requires i < |s|
    ensures var d := NextUtf16(s[i..]);
      done + Encode(s[i..]) == done + Utf8(d.cp) + Encode(s[i + d.length..])
  {
    var d := NextUtf16(s[i..]);
    assert s[i..][d.length..] == s[i + d.length..];
  }

  method PushUtf16CodePoint(output: seq<Unit>, u: nat, size: nat) returns (output': seq<Unit>, pushed: bool)
    ensures pushed == (|output + Utf16(u)| <= size)
    ensures output' == if pushed then output + Utf16(u) else output
  {
    if |output| >= size {
      return output, false;
    }
    if u < 0x1_0000 {
      return output + [u], true;
    } else if u > MAX_CODE_POINT {
      return output + [REPLACEMENT_CHARACTER], true;
    } else if |output| + 1 < size {
      var ut := u - 0x1_0000;
      return output + [0xD800 + ut / 1024 % 256] + [0xDC00 + ut % 1024], true;
    } else {
      return output, false;
    }
  }

  // A truncated conversion is the longest whole number of code points that fits.
  method Utf8ToUtf16(text: seq<Byte>, size: nat) returns (output: seq<Unit>, ghost taken: nat)
    ensures taken <= |CodePoints(text)|
    ensures output == Units(CodePoints(text)[..taken])
    ensures |output| <= Min(size, |text|)
    ensures forall k :: 0 <= k <= |CodePoints(text)| && |Units(CodePoints(text)[..k])| <= size ==> k <= taken
    ensures size >= |text| ==> output == Decode(text)
  {
    output, taken := [], 0;
    var slice := text;
    ghost var cps := CodePoints(text);
    UnitsAreNoLonger(text);
    while slice != []
      invariant taken <= |cps|
      invariant output == Units(cps[..taken]) && |output| <= size
      invariant CodePoints(slice) == cps[taken..]
      decreases |slice|
    {
      var d := NextUtf8Char(slice);
      assert d.cp == cps[taken];
      UnitsOfNext(cps, taken);
      UnitsOfPrefix(cps, taken);
      var pushed;
      output, pushed := PushUtf16CodePoint(output, d.cp, size);
      if !pushed {
        LongestPrefix(cps, taken, size);
        return;
      }
      taken := taken + 1;
      slice := slice[d.length..];
    }
    assert cps[..taken] == cps;
  }

  lemma {:induction false} UnitsConcat(a: seq<nat>, b: seq<nat>)
    ensures Units(a + b) == Units(a) + Units(b)
  {
    if a == [] {
      assert a + b == b;
    } else {
      assert (a + b)[1..] == a[1..] + b;
      UnitsConcat(a[1..], b);
    }
  }

  lemma UnitsOfNext(cps: seq<nat>, k: nat)
    requires k < |cps|
    ensures Units(cps[..k + 1]) == Units(cps[..k]) + Utf16(cps[k])
  {
    assert cps[..k + 1] == cps[..k] + [cps[k]];
    UnitsConcat(cps[..k], [cps[k]]);
  }

  lemma UnitsMonotone(cps: seq<nat>, j: nat, k: nat)
    requires j <= k <= |cps|
    ensures |Units(cps[..j])| <= |Units(cps[..k])|
  {
    assert cps[..k] == cps[..j] + cps[j..k];
    UnitsConcat(cps[..j], cps[j..k]);
  }

  lemma LongestPrefix(cps: seq<nat>, taken: nat, size: nat)
    requires taken < |cps| && |Units(cps[..taken + 1])| > size
    ensures forall k :: 0 <= k <= |cps| && |Units(cps[..k])| <= size ==> k <= taken
  {
    forall k | taken < k <= |cps| ensures |Units(cps[..k])| > size {
      UnitsMonotone(cps, taken + 1, k);
    }
  }

  lemma UnitsOfPrefix(cps: seq<nat>, k: nat)
    requires k <= |cps|
    ensures |Units(cps[..k])| <= |Units(cps)|
  {
    assert cps[..|cps|] == cps;
    UnitsMonotone(cps, k, |cps|);
  }

  lemma {:induction false} UnitsAreNoLonger(b: seq<Byte>)
    ensures |Decode(b)| <= |b|
    ensures forall k :: 0 <= k <= |CodePoints(b)| ==> |Units(CodePoints(b)[..k])| <= |b|
  {
    if b != [] {
      UnitsAreNoLonger(b[NextUtf8Char(b).length..]);
    }
    forall k | 0 <= k <= |CodePoints(b)| ensures |Units(CodePoints(b)[..k])| <= |b| {
      UnitsOfPrefix(CodePoints(b), k);
    }
  }

  // ----- UTF-16 to UTF-8 and back

  // The unit string with every paired lead surrogate reduced to its low eight bits.
  function FoldPairs(s: seq<Unit>): (t: seq<Unit>)
    ensures |t| == |s|
  {
    if s == [] then []
    else if StartsWithPair(s) then [0xD800 + (s[0] - 0xD800) % 256, s[1]] + FoldPairs(s[2..])
    else [s[0]] + FoldPairs(s[1..])
  }

  // Every paired lead surrogate is below 0xD900.
  predicate PairsAreLow(s: seq<Unit>) {
    s == [] || ((StartsWithPair(s) ==> s[0] < 0xD900) && PairsAreLow(s[NextUtf16(s).length..]))
  }

  lemma DecodeStep(cp: nat, rest: seq<Byte>)
    requires cp <= MAX_CODE_POINT
    ensures Decode(Utf8(cp) + rest) == Utf16(cp) + Decode(rest)
  {
    NextOfUtf8(cp, rest);
    assert (Utf8(cp) + rest)[|Utf8(cp)|..] == rest;
  }

  lemma FoldNext(s: seq<Unit>)
    requires s != []
    ensures var d := NextUtf16(s);
      FoldPairs(s) == Utf16(d.cp) + FoldPairs(s[d.length..])
  {
    if StartsWithPair(s) {
      var lead: int, trail: int := s[0] - 0xD800, s[1] - 0xDC00;
      assert (lead * 1024 + trail) / 1024 == lead && (lead * 1024 + trail) % 1024 == trail;
    }
  }

  lemma {:induction false} DecodeEncode(s: seq<Unit>)
    ensures Decode(Encode(s)) == FoldPairs(s)
  {
    if s != [] {
      var d := NextUtf16(s);
      DecodeStep(d.cp, Encode(s[d.length..]));
      DecodeEncode(s[d.length..]);
      FoldNext(s);
    }
  }

  lemma {:induction false} FoldPairsIsIdentity(s: seq<Unit>)
    ensures FoldPairs(s) == s <==> PairsAreLow(s)
  {
    if s != [] {
      var f, n := FoldPairs(s), NextUtf16(s).length;
      FoldPairsIsIdentity(s[n..]);
      assert f == s <==> f[..n] == s[..n] && f[n..] == s[n..] by {
        assert s == s[..n] + s[n..] && f == f[..n] + f[n..];
      }
      assert f[..n] == s[..n] <==> f[0] == s[0];
    }
  }

  // Any 16-bit string, ill-formed ones included, survives the trip through UTF-8 exactly when its paired
  // lead surrogates are below 0xD900, that is, when it holds no code point above U+4FFFF.
  lemma Utf16RoundTrip(s: seq<Unit>)
    ensures Decode(Encode(s)) == s <==> PairsAreLow(s)
  {
    DecodeEncode(s);
    FoldPairsIsIdentity(s);
  }

  // ----- UTF-8 to UTF-16 and back

  // WTF-8 restricted to what the UTF-16 encoder can represent: shortest forms only, no code point above
  // U+4FFFF, and no surrogate pair spelled as two three-byte sequences.
  predicate IsNarrowWtf8(b: seq<Byte>) {
    b == [] || (IsNarrowHead(b) && IsNarrowWtf8(b[NextUtf8Char(b).length..]))
  }

  predicate IsNarrowHead(b: seq<Byte>)
    requires b != []
  {
    var d := NextUtf8Char(b);
    var rest := b[d.length..];
    && d.cp < 0x5_0000
    && Utf8(d.cp) == b[..d.length]
    && !(IsLeadSurrogate(d.cp) && rest != [] && IsTrailSurrogate(NextUtf8Char(rest).cp))
  }

  lemma EncodeNext(cp: nat, u: seq<Unit>)
    requires cp < 0x5_0000
    requires !(IsLeadSurrogate(cp) && u != [] && IsTrailSurrogate(u[0]))
    ensures Encode(Utf16(cp) + u) == Utf8(cp) + Encode(u)
  {
    var s := Utf16(cp) + u;
    assert s[|Utf16(cp)|..] == u;
    if cp >= 0x1_0000 {
      PairOfCodePoint(cp);
      assert s[0] == Utf16(cp)[0] && s[1] == Utf16(cp)[1];
    }
  }

  lemma PairOfCodePoint(cp: nat)
    requires 0x1_0000 <= cp < 0x5_0000
    ensures var u := Utf16(cp);
      |u| == 2 && IsLeadSurrogate(u[0]) && IsTrailSurrogate(u[1]) && PairValue(u[0], u[1]) == cp
  {
    var ut := cp - 0x1_0000;
    assert ut / 1024 < 256 && ut == ut / 1024 * 1024 + ut % 1024;
  }

  lemma FirstUnit(b: seq<Byte>)
    requires b != []
    ensures Decode(b) != []
    ensures IsTrailSurrogate(Decode(b)[0]) <==> IsTrailSurrogate(NextUtf8Char(b).cp)
  {
  }

  lemma {:induction false} EncodeDecode(b: seq<Byte>)
    requires IsNarrowWtf8(b)
    ensures Encode(Decode(b)) == b
  {
    if b != [] {
      var d := NextUtf8Char(b);
      var rest := b[d.length..];
      EncodeDecode(rest);
      if rest != [] {
        FirstUnit(rest);
      }
      EncodeNext(d.cp, Decode(rest));
    }
  }

  lemma {:induction false} EncodingsAreWtf8(s: seq<Unit>)
    requires PairsAreLow(s)
    ensures IsNarrowWtf8(Encode(s))
    ensures s != [] ==> Encode(s) != []
    ensures s != [] && IsTrailSurrogate(NextUtf8Char(Encode(s)).cp) ==> IsTrailSurrogate(s[0])
  {
    if s != [] {
      var d := NextUtf16(s);
      var rest := Encode(s[d.length..]);
      EncodingsAreWtf8(s[d.length..]);
      NextOfUtf8(d.cp, rest);
      assert Encode(s)[|Utf8(d.cp)|..] == rest;
      assert Encode(s)[..|Utf8(d.cp)|] == Utf8(d.cp);
    }
  }

  // A byte string survives the trip through UTF-16 exactly when it is narrow WTF-8.
  lemma Utf8RoundTrip(b: seq<Byte>)
    ensures Encode(Decode(b)) == b <==> IsNarrowWtf8(b)
  {
    if IsNarrowWtf8(b) {
      EncodeDecode(b);
    }
    if Encode(Decode(b)) == b {
      DecodeEncode(Decode(b));
      FoldPairsIsIdentity(Decode(b));
      EncodingsAreWtf8(Decode(b));
    }
  }

  // Well-formed UTF-8 by the syntax of section 4 of RFC 3629.
  predicate IsUtf8(b: seq<Byte>) {
    b == [] || exists n :: 1 <= n <= 4 && n <= |b| && IsUtf8Char(b[..n]) && IsUtf8(b[n..])
  }

  predicate IsTail(c: Byte) {
    0x80 <= c <= 0xBF
  }

  predicate IsUtf8Char(c: seq<Byte>) {
    IsUtf8One(c) || IsUtf8Two(c) || IsUtf8Three(c) || IsUtf8Four(c)
  }

  predicate IsUtf8One(c: seq<Byte>) {
    |c| == 1 && c[0] <= 0x7F
  }

  predicate IsUtf8Two(c: seq<Byte>) {
    |c| == 2 && 0xC2 <= c[0] <= 0xDF && IsTail(c[1])
  }

  predicate IsUtf8Three(c: seq<Byte>) {
    |c| == 3 && IsTail(c[2]) &&
    (|| (c[0] == 0xE0 && 0xA0 <= c[1] <= 0xBF)
     || (0xE1 <= c[0] <= 0xEC && IsTail(c[1]))
     || (c[0] == 0xED && 0x80 <= c[1] <= 0x9F)
     || (0xEE <= c[0] <= 0xEF && IsTail(c[1])))
  }

  predicate IsUtf8Four(c: seq<Byte>) {
    |c| == 4 && IsTail(c[2]) && IsTail(c[3]) &&
    (|| (c[0] == 0xF0 && 0x90 <= c[1] <= 0xBF)
     || (0xF1 <= c[0] <= 0xF3 && IsTail(c[1]))
     || (c[0] == 0xF4 && 0x80 <= c[1] <= 0x8F))
  }

  lemma Split64(a: nat, b: nat)
    requires b < 64
    ensures (a * 64 + b) / 64 == a && (a * 64 + b) % 64 == b
  {
  }

  predicate DecodesTo(c: seq<Byte>, rest: seq<Byte>, cp: nat) {
    c != [] && NextUtf8Char(c + rest) == Decoded(cp, |c|) && cp <= MAX_CODE_POINT && Utf8(cp) == c
    && !(0xD800 <= cp <= 0xDFFF)
  }

  lemma TwoByteChar(c: seq<Byte>, rest: seq<Byte>)
    requires IsUtf8Two(c)
    ensures exists cp :: DecodesTo(c, rest, cp)
  {
    var x: int, y := c[0] - 0xC0, Low6(c[1]);
    Split64(x, y);
    assert DecodesTo(c, rest, x * 64 + y);
  }

  lemma ThreeByteChar(c: seq<Byte>, rest: seq<Byte>)
    requires IsUtf8Three(c)
    ensures exists cp :: DecodesTo(c, rest, cp)
  {
    var x: int, y, z := c[0] - 0xE0, Low6(c[1]), Low6(c[2]);
    var hi := x * 64 + y;
    Split64(x, y);
    Split64(hi, z);
    assert (hi * 64 + z) / 4096 == hi / 64;
    assert DecodesTo(c, rest, hi * 64 + z);
  }

  lemma FourByteChar(c: seq<Byte>, rest: seq<Byte>)
    requires IsUtf8Four(c)
    ensures exists cp :: DecodesTo(c, rest, cp)
  {
    var w: int, x, y, z := c[0] - 0xF0, Low6(c[1]), Low6(c[2]), Low6(c[3]);
    var hi := w * 64 + x;
    var mid := hi * 64 + y;
    Split64(w, x);
    Split64(hi, y);
    Split64(mid, z);
    assert (mid * 64 + z) / 4096 == mid / 64;
    assert (mid * 64 + z) / 0x4_0000 == hi / 64;
    assert DecodesTo(c, rest, mid * 64 + z);
  }

  lemma Utf8CharDecodes(c: seq<Byte>, rest: seq<Byte>)
    requires IsUtf8Char(c)
    ensures exists cp :: DecodesTo(c, rest, cp)
  {
    if IsUtf8One(c) {
      assert DecodesTo(c, rest, c[0]);
    } else if IsUtf8Two(c) {
      TwoByteChar(c, rest);
    } else if IsUtf8Three(c) {
      ThreeByteChar(c, rest);
    } else {
      FourByteChar(c, rest);
    }
  }

  lemma FirstOfUtf8(b: seq<Byte>, n: nat) returns (cp: nat)
    requires 1 <= n <= |b| && IsUtf8Char(b[..n])
    ensures NextUtf8Char(b) == Decoded(cp, n) && cp <= MAX_CODE_POINT && Utf8(cp) == b[..n]
    ensures !(0xD800 <= cp <= 0xDFFF)
  {
    Utf8CharDecodes(b[..n], b[n..]);
    cp :| DecodesTo(b[..n], b[n..], cp);
    assert b == b[..n] + b[n..];
  }

  lemma Utf8HeadIsNarrow(b: seq<Byte>, n: nat)
    requires 1 <= n <= |b| && IsUtf8Char(b[..n])
    ensures NextUtf8Char(b).length == n
    ensures IsNarrowHead(b) <==> NextUtf8Char(b).cp < 0x5_0000
  {
    var cp := FirstOfUtf8(b, n);
  }

  predicate AllBelow(cps: seq<nat>, bound: nat) {
    forall i :: 0 <= i < |cps| ==> cps[i] < bound
  }

  lemma AllBelowNext(cps: seq<nat>, bound: nat)
    requires cps != []
    ensures AllBelow(cps, bound) <==> cps[0] < bound && AllBelow(cps[1..], bound)
  {
    if cps[0] < bound && AllBelow(cps[1..], bound) {
      forall i | 0 <= i < |cps| ensures cps[i] < bound {
        assert i > 0 ==> cps[i] == cps[1..][i - 1];
      }
    }
  }

  lemma {:induction false} WellFormedIsNarrow(b: seq<Byte>)
    requires IsUtf8(b)
    ensures IsNarrowWtf8(b) <==> AllBelow(CodePoints(b), 0x5_0000)
  {
    if b != [] {
      var n :| 1 <= n <= 4 && n <= |b| && IsUtf8Char(b[..n]) && IsUtf8(b[n..]);
      Utf8HeadIsNarrow(b, n);
      WellFormedIsNarrow(b[n..]);
      assert IsNarrowWtf8(b) <==> IsNarrowHead(b) && IsNarrowWtf8(b[n..]);
      AllBelowNext(CodePoints(b), 0x5_0000);
    }
  }

  // Well-formed UTF-8 survives exactly when every code point in it is below U+50000.
  lemma WellFormedUtf8RoundTrip(b: seq<Byte>)
    requires IsUtf8(b)
    ensures Encode(Decode(b)) == b <==> AllBelow(CodePoints(b), 0x5_0000)
  {
    Utf8RoundTrip(b);
    WellFormedIsNarrow(b);
  }
}
