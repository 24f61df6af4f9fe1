/**
  The `key=type:value` text form of settings (dCommon/LDFFormat.cpp, dCommon/LDFFormat.h) with the integer
  parser (dCommon/GeneralUtils.h) and the ASCII widening (dCommon/GeneralUtils.cpp) it is built on.
 */
module Ldf {
  import opened Basics
  import opened Unicode

  type Text = seq<Byte>
  type UInt32 = x: int | 0 <= x < 0x1_0000_0000
  type UInt64 = x: int | 0 <= x < 0x1_0000_0000_0000_0000

  datatype Option<+T> = None | Some(value: T)

  datatype Value =
    | Utf16Value(units: seq<Unit>)
    | S32Value(s32: Int32)
    | U32Value(u32: UInt32)
    | BoolValue(b: bool)
    | U64Value(u64: UInt64)
    | ObjIdValue(id: Int64)
    | Utf8Value(text: Text)

  datatype Entry = Entry(key: seq<Unit>, value: Value)

  // What the parser returns: nothing, an entry, or an entry whose value goes to the floating-point parser.
  datatype Parsed = Null | Parsed(entry: Entry) | FloatingPoint(key: seq<Unit>)

  const EQUALS: Byte := 0x3D
  const COLON: Byte := 0x3A
  const MINUS: Byte := 0x2D
  const PLUS: Byte := 0x2B
  const ZERO: Byte := 0x30

  // ----- searching and trimming

  // The position of the first c, or the length if there is none.
  function Find(s: Text, c: Byte): (i: nat)
    ensures i <= |s| && c !in s[..i]
    ensures i < |s| ==> s[i] == c
  {
    if s == [] || s[0] == c then 0 else
      var i := Find(s[1..], c) + 1;
      assert s[..i] == [s[0]] + s[1..][..i - 1];
      i
  }

  lemma {:induction false} FindAfter(prefix: Text, c: Byte, rest: Text)
    requires c !in prefix
    ensures Find(prefix + [c] + rest, c) == |prefix|
  {
    if prefix == [] {
      assert prefix + [c] + rest == [c] + rest;
    } else {
      assert (prefix + [c] + rest)[1..] == prefix[1..] + [c] + rest;
      FindAfter(prefix[1..], c, rest);
    }
  }

  predicate IsSpace(c: Byte) {
    c == 0x20 || 0x09 <= c <= 0x0D
  }

  predicate IsDigit(c: Byte) {
    0x30 <= c <= 0x39
  }

  function TrimFront(s: Text): Text {
    if s != [] && IsSpace(s[0]) then TrimFront(s[1..]) else s
  }

  // ----- decimal numbers

  function Digits(n: nat): (s: Text)
    ensures s != []
  {
    if n < 10 then [ZERO + n] else Digits(n / 10) + [ZERO + n % 10]
  }

  function ToString(x: int): Text {
    if x < 0 then [MINUS] + Digits(-x) else Digits(x)
  }

  predicate AllDigits(s: Text) {
    forall i :: 0 <= i < |s| ==> IsDigit(s[i])
  }

  function DigitsValue(s: Text): (n: nat)
    requires AllDigits(s)
  {
    if s == [] then 0 else
      assert IsDigit(s[|s| - 1]);
      DigitsValue(s[..|s| - 1]) * 10 + (s[|s| - 1] - ZERO)
  }

  lemma {:induction false} DigitsReadBack(n: nat)
    ensures AllDigits(Digits(n)) && DigitsValue(Digits(n)) == n
  {
    if n < 10 {
      assert Digits(n)[..0] == [];
    } else {
      DigitsReadBack(n / 10);
      assert Digits(n)[..|Digits(n)| - 1] == Digits(n / 10);
    }
  }

  // std::from_chars on the whole view: an optional minus for signed types, then digits only, within range.
  function FromChars(s: Text, lo: int, hi: int): (r: Option<int>)
    requires lo <= 0 <= hi
    ensures r.Some? ==> lo <= r.value <= hi
  {
    var negative := lo < 0 && s != [] && s[0] == MINUS;
    var digits := if negative then s[1..] else s;
    if digits == [] || !AllDigits(digits) then None
    else
      var x: int := if negative then 0 - DigitsValue(digits) else DigitsValue(digits);
      if lo <= x <= hi then Some(x) else None
  }

  method TryParse(text: Text, lo: int, hi: int) returns (r: Option<int>)
    requires lo <= 0 <= hi
    ensures r == FromChars(TrimFront(text), lo, hi)
  {
    var str := text;
    while str != [] && IsSpace(str[0])
      invariant TrimFront(str) == TrimFront(text)
      decreases |str|
    {
      str := str[1..];
    }
    r := FromChars(str, lo, hi);
  }

  function ParseInt(s: Text, lo: int, hi: int): (r: Option<int>)
    requires lo <= 0 <= hi
    ensures r.Some? ==> lo <= r.value <= hi
  {
    FromChars(TrimFront(s), lo, hi)
  }

  lemma PrintedNumberParses(x: int, lo: int, hi: int)
    requires lo <= 0 <= hi && lo <= x <= hi
    ensures ParseInt(ToString(x), lo, hi) == Some(x)
  {
    var n := if x < 0 then -x else x;
    DigitsReadBack(n);
    assert IsDigit(Digits(n)[0]);
    assert ([MINUS] + Digits(n))[1..] == Digits(n);
  }

  // strtol in base 10: leading space, an optional sign, then as many digits as there are.
  function Strtol(s: Text): int {
    var t := TrimFront(s);
    var signed := t != [] && (t[0] == MINUS || t[0] == PLUS);
    var digits := if signed then t[1..] else t;
    var x := DigitsValue(LeadingDigits(digits));
    if signed && t[0] == MINUS then 0 - x else x
  }

  function LeadingDigits(s: Text): (d: Text)
    ensures AllDigits(d)
  {
    if s != [] && IsDigit(s[0]) then [s[0]] + LeadingDigits(s[1..]) else []
  }

  lemma {:induction false} LeadingOfDigits(s: Text)
    requires AllDigits(s)
    ensures LeadingDigits(s) == s
  {
    if s != [] {
      LeadingOfDigits(s[1..]);
    }
  }

  lemma StrtolOfDigits(n: nat)
    ensures Strtol(Digits(n)) == n
  {
    DigitsReadBack(n);
    assert IsDigit(Digits(n)[0]);
    LeadingOfDigits(Digits(n));
  }

  // ----- keys

  function Widen(c: Byte): Unit {
    if 0 < c <= 127 then c else REPLACEMENT_CHARACTER
  }

  function AsciiToUtf16(s: Text): (u: seq<Unit>)
    ensures |u| == |s| && forall i :: 0 <= i < |s| ==> u[i] == Widen(s[i])
  {
    seq(|s|, i requires 0 <= i < |s| => Widen(s[i]))
  }

  method WidenAscii(text: Text, size: nat) returns (ret: seq<Unit>)
    ensures ret == AsciiToUtf16(text[..Min(size, |text|)])
  {
    var newSize := Min(size, |text|);
    ret := [];
    for i := 0 to newSize
      invariant |ret| == i && forall k :: 0 <= k < i ==> ret[k] == Widen(text[k])
    {
      var c := text[i];
      ret := ret + [if c > 0 && c <= 127 then c else REPLACEMENT_CHARACTER];
    }
  }

  // ----- printing

  function TypeOf(v: Value): nat {
    match v
    case Utf16Value(_) => 0
    case S32Value(_) => 1
    case U32Value(_) => 5
    case BoolValue(_) => 7
    case U64Value(_) => 8
    case ObjIdValue(_) => 9
    case Utf8Value(_) => 13
  }

  function ValueString(v: Value): Text {
    match v
    case Utf16Value(units) => Encode(units)
    case S32Value(x) => ToString(x)
    case U32Value(x) => ToString(x)
    case BoolValue(b) => ToString(if b then 1 else 0)
    case U64Value(x) => ToString(x)
    case ObjIdValue(x) => ToString(x)
    case Utf8Value(text) => text
  }

  function GetString(e: Entry, includeKey: bool := true, includeTypeId: bool := true): Text {
    (if includeKey then Encode(e.key) + [EQUALS] else [])
    + (if includeTypeId then Digits(TypeOf(e.value)) + [COLON] else [])
    + ValueString(e.value)
  }

  // ----- parsing

  const TRUE_TEXT: Text := [0x74, 0x72, 0x75, 0x65]
  const FALSE_TEXT: Text := [0x66, 0x61, 0x6C, 0x73, 0x65]

  function ParseOrWord(s: Text, hi: int): (r: Option<int>)
    requires hi >= 1
    ensures r.Some? ==> 0 <= r.value <= hi
  {
    if s == TRUE_TEXT then Some(1) else if s == FALSE_TEXT then Some(0) else ParseInt(s, 0, hi)
  }

  function DataFromString(format: Text): Parsed {
    if |format| <= 2 then Null else
    var equals := Find(format, EQUALS);
    if equals >= |format| - 1 then Null else
    var key := AsciiToUtf16(format[..equals]);
    var typeAndValue := format[equals + 1..];
    var colon := Find(typeAndValue, COLON);
    if colon == |typeAndValue| || colon == 0 then Null else
    var typeText, value := typeAndValue[..colon], typeAndValue[colon + 1..];
    if value == [] && typeText != Digits(0) && typeText != Digits(13) then Null
    else ValueFromString(key, Strtol(typeText), value)
  }

  function ValueFromString(key: seq<Unit>, ldfType: int, value: Text): Parsed {
    match ldfType
    case 0 => Parsed(Entry(key, Utf16Value(Decode(value))))
    case 1 =>
      (match ParseInt(value, -0x8000_0000, 0x7FFF_FFFF)
       case Some(x) => Parsed(Entry(key, S32Value(x)))
       case None => Null)
    case 3 => FloatingPoint(key)
    case 4 => FloatingPoint(key)
    case 5 =>
      (match ParseOrWord(value, 0xFFFF_FFFF)
       case Some(x) => Parsed(Entry(key, U32Value(x)))
       case None => Null)
    case 7 =>
      (match ParseOrWord(value, 0xFF)
       case Some(x) => Parsed(Entry(key, BoolValue(x != 0)))
       case None => Null)
    case 8 =>
      (match ParseInt(value, 0, 0xFFFF_FFFF_FFFF_FFFF)
       case Some(x) => Parsed(Entry(key, U64Value(x)))
       case None => Null)
    case 9 =>
      (match ParseInt(value, -0x8000_0000_0000_0000, 0x7FFF_FFFF_FFFF_FFFF)
       case Some(x) => Parsed(Entry(key, ObjIdValue(x)))
       case None => Null)
    case 13 => Parsed(Entry(key, Utf8Value(UpTo(value, 0))))
    case _ => Null
  }

  // ----- the round trip

  // Keys of ASCII characters other than NUL and '='.
  predicate KeySurvives(key: seq<Unit>) {
    forall i :: 0 <= i < |key| ==> 0 < key[i] <= 127 && key[i] != EQUALS
  }

  predicate ValueSurvives(v: Value) {
    match v
    case Utf16Value(units) => PairsAreLow(units)
    case Utf8Value(text) => 0 !in text
    case _ => true
  }

  // A unit string grows in UTF-8 unless it is ASCII, and then it is unchanged.
  lemma {:induction false} EncodeLength(s: seq<Unit>)
    ensures |Encode(s)| >= |s|
    ensures |Encode(s)| == |s| ==> Encode(s) == s && forall i :: 0 <= i < |s| ==> s[i] <= 127
  {
    if s != [] {
      var d := NextUtf16(s);
      EncodeLength(s[d.length..]);
      assert |Utf8(d.cp)| >= d.length;
      if |Encode(s)| == |s| {
        assert d.length == 1;
        assert s == [s[0]] + s[1..];
      }
    }
  }

  lemma {:induction false} EncodeAscii(s: seq<Unit>)
    requires forall i :: 0 <= i < |s| ==> s[i] <= 127
    ensures Encode(s) == s
  {
    if s != [] {
      assert NextUtf16(s) == Decoded(s[0], 1);
      EncodeAscii(s[1..]);
      assert s == [s[0]] + s[1..];
    }
  }

  lemma {:induction false} AsciiBytesAreUnits(s: seq<Unit>, c: Byte)
    requires c <= 127 && c in Encode(s)
    ensures c in s
  {
    var d := NextUtf16(s);
    var rest := s[d.length..];
    if c in Encode(rest) {
      AsciiBytesAreUnits(rest, c);
    } else {
      assert c in Utf8(d.cp);
      assert d.cp == c;
    }
  }

  lemma ValueRoundTrip(key: seq<Unit>, v: Value)
    ensures ValueFromString(key, TypeOf(v), ValueString(v)) == Parsed(Entry(key, v)) <==> ValueSurvives(v)
    ensures ValueFromString(key, TypeOf(v), ValueString(v)).Parsed?
    ensures ValueFromString(key, TypeOf(v), ValueString(v)).entry.key == key
  {
    match v
    case Utf16Value(units) => Utf16RoundTrip(units);
    case Utf8Value(text) => WholeUpToNul(text);
    case _ => NumberRoundTrip(key, v);
  }

  lemma WholeUpToNul(text: Text)
    ensures UpTo(text, 0) == text <==> 0 !in text
  {
    var t := UpTo(text, 0);
    if |t| == |text| {
      assert t == text;
    } else {
      assert text[|t|] == 0;
    }
  }

  lemma NumberRoundTrip(key: seq<Unit>, v: Value)
    requires !v.Utf16Value? && !v.Utf8Value?
    ensures ValueFromString(key, TypeOf(v), ValueString(v)) == Parsed(Entry(key, v))
  {
    match v
    case S32Value(x) => PrintedNumberParses(x, -0x8000_0000, 0x7FFF_FFFF);
    case U32Value(x) =>
      PrintedNumberParses(x, 0, 0xFFFF_FFFF);
      NumbersAreNotWords(x);
    case BoolValue(b) =>
      var x := if b then 1 else 0;
      PrintedNumberParses(x, 0, 0xFF);
      NumbersAreNotWords(x);
    case U64Value(x) => PrintedNumberParses(x, 0, 0xFFFF_FFFF_FFFF_FFFF);
    case ObjIdValue(x) => PrintedNumberParses(x, -0x8000_0000_0000_0000, 0x7FFF_FFFF_FFFF_FFFF);
  }

  lemma NumbersAreNotWords(n: nat)
    ensures ToString(n) != TRUE_TEXT && ToString(n) != FALSE_TEXT
  {
    DigitsReadBack(n);
    assert IsDigit(Digits(n)[0]);
  }

  // Splitting a printed entry at its first '=' and ':' recovers the type and the value, if the key has no '='.
  lemma PrintedEntrySplits(e: Entry)
    requires EQUALS !in Encode(e.key)
    ensures DataFromString(GetString(e))
         == ValueFromString(AsciiToUtf16(Encode(e.key)), TypeOf(e.value), ValueString(e.value))
  {
    var k, t, v := Encode(e.key), Digits(TypeOf(e.value)), ValueString(e.value);
    var format := GetString(e);
    DigitsReadBack(TypeOf(e.value));
    assert COLON !in t;
    assert format == k + [EQUALS] + (t + [COLON] + v);
    FindAfter(k, EQUALS, t + [COLON] + v);
    FindAfter(t, COLON, v);
    assert format[..|k|] == k;
    assert format[|k| + 1..] == t + [COLON] + v;
    assert (t + [COLON] + v)[..|t|] == t;
    assert (t + [COLON] + v)[|t| + 1..] == v;
    StrtolOfDigits(TypeOf(e.value));
    ValueIsAllowed(e.value);
  }

  lemma ValueIsAllowed(v: Value)
    ensures ValueString(v) == [] ==> Digits(TypeOf(v)) == Digits(0) || Digits(TypeOf(v)) == Digits(13)
    ensures |Digits(TypeOf(v))| + |ValueString(v)| >= 1
  {
  }

  lemma KeyRoundTrip(key: seq<Unit>)
    ensures EQUALS !in key ==> (AsciiToUtf16(Encode(key)) == key <==> KeySurvives(key))
    ensures KeySurvives(key) ==> EQUALS !in key
  {
    EncodeLength(key);
    if KeySurvives(key) {
      EncodeAscii(key);
    }
    if AsciiToUtf16(Encode(key)) == key && EQUALS !in key {
      forall i | 0 <= i < |key| ensures 0 < key[i] <= 127 && key[i] != EQUALS {
        assert key[i] == Widen(Encode(key)[i]);
        assert key[i] in key;
      }
    }
  }

  // A printed setting reads back as itself exactly when its key is ASCII without NUL and '=' and its value
  // survives; values may hold '=' and ':' and may be empty.
  lemma RoundTrip(e: Entry)
    ensures DataFromString(GetString(e)) == Parsed(e) <==> KeySurvives(e.key) && ValueSurvives(e.value)
  {
    KeyRoundTrip(e.key);
    if EQUALS in Encode(e.key) {
      AsciiBytesAreUnits(e.key, EQUALS);
      SplitKeyIsLost(e);
    } else {
      PrintedEntrySplits(e);
      ValueRoundTrip(AsciiToUtf16(Encode(e.key)), e.value);
      if EQUALS in e.key {
        EqualsIsPrinted(e.key);
      }
    }
  }

  lemma {:induction false} EqualsIsPrinted(key: seq<Unit>)
    requires EQUALS in key
    ensures EQUALS in Encode(key)
  {
    var d := NextUtf16(key);
    if key[0] == EQUALS {
      assert Encode(key)[0] == EQUALS;
    } else {
      assert key == key[..d.length] + key[d.length..];
      EqualsIsPrinted(key[d.length..]);
    }
  }

  lemma ParsedKey(format: Text)
    ensures var r := DataFromString(format);
      r.Parsed? ==> r.entry.key == AsciiToUtf16(format[..Find(format, EQUALS)])
  {
  }

  lemma WidenedHasNoEquals(s: Text)
    requires EQUALS !in s
    ensures EQUALS !in AsciiToUtf16(s)
  {
    forall k | 0 <= k < |s| ensures AsciiToUtf16(s)[k] != EQUALS {
      assert s[k] in s;
    }
  }

  // The parser cuts the key at its first '=', so an entry whose key holds one comes back with another key.
  lemma SplitKeyIsLost(e: Entry)
    requires EQUALS in e.key
    ensures DataFromString(GetString(e)) != Parsed(e)
  {
    var format := GetString(e);
    ParsedKey(format);
    WidenedHasNoEquals(format[..Find(format, EQUALS)]);
  }
}
