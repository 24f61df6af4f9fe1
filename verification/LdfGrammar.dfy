/**
  The language of settings, from the text alone (dCommon/LDFFormat.cpp, dCommon/GeneralUtils.h).

  Says of any text whether it is a setting and what value it has, including texts that are never printed: the words
  for truth values, numbers with space in front or leading zeros, tags with a sign.
 */
module LdfGrammar {
  import opened Basics
  import opened Unicode
  import opened Ldf

  function Ascii(s: string): (t: Text)
    requires forall i :: 0 <= i < |s| ==> s[i] <= '~'
    ensures |t| == |s| && forall i :: 0 <= i < |s| ==> t[i] == s[i] as int
  {
    seq(|s|, i requires 0 <= i < |s| => s[i] as int)
  }

  // ----- numerals

  function Power(n: nat): (p: nat)
    ensures p > 0
  {
    if n == 0 then 1 else 10 * Power(n - 1)
  }

  // The sum of the digits, each times ten to the number of digits behind it.
  function Positional(s: Text): nat
    requires AllDigits(s)
  {
    if s == [] then 0 else
      assert IsDigit(s[0]);
      (s[0] - 0x30) * Power(|s| - 1) + Positional(s[1..])
  }

  lemma {:induction false} PositionalAppend(s: Text, c: Byte)
    requires AllDigits(s) && IsDigit(c)
    ensures AllDigits(s + [c]) && Positional(s + [c]) == 10 * Positional(s) + (c - 0x30)
  {
    if s == [] {
      assert [] + [c] == [c] && [c][1..] == [];
      assert Power(0) == 1;
    } else {
      PositionalAppend(s[1..], c);
      assert (s + [c])[1..] == s[1..] + [c] && (s + [c])[0] == s[0];
      FirstDigitAppend(s[0] - 0x30, |s|, Positional(s[1..]), c - 0x30);
    }
  }

  lemma FirstDigitAppend(first: int, n: nat, rest: int, last: int)
    requires n > 0
    ensures first * Power(n) + (10 * rest + last) == 10 * (first * Power(n - 1) + rest) + last
  {
    assert first * (10 * Power(n - 1)) == 10 * (first * Power(n - 1));
  }

  lemma {:induction false} DigitsValueIsPositional(s: Text)
    requires AllDigits(s)
    ensures DigitsValue(s) == Positional(s)
  {
    if s != [] {
      var n := |s| - 1;
      DigitsValueIsPositional(s[..n]);
      PositionalAppend(s[..n], s[n]);
      assert s[..n] + [s[n]] == s;
    }
  }

  predicate AllSpaces(s: Text) {
    forall i :: 0 <= i < |s| ==> s[i] in {9, 10, 11, 12, 13, 32}
  }

  lemma SpaceOrNot(c: Byte)
    ensures IsSpace(c) <==> c in {9, 10, 11, 12, 13, 32}
  {
  }

  lemma {:induction false} TrimFrontMeans(spaces: Text, rest: Text)
    requires AllSpaces(spaces) && (rest != [] ==> !IsSpace(rest[0]))
    ensures TrimFront(spaces + rest) == rest
  {
    if spaces == [] {
      assert spaces + rest == rest;
    } else {
      SpaceOrNot(spaces[0]);
      assert (spaces + rest)[1..] == spaces[1..] + rest;
      TrimFrontMeans(spaces[1..], rest);
    }
  }

  lemma {:induction false} SpacesInFront(s: Text) returns (spaces: Text)
    ensures AllSpaces(spaces) && s == spaces + TrimFront(s)
    ensures TrimFront(s) != [] ==> !IsSpace(TrimFront(s)[0])
  {
    if s != [] && IsSpace(s[0]) {
      SpaceOrNot(s[0]);
      var more := SpacesInFront(s[1..]);
      spaces := [s[0]] + more;
      assert s == [s[0]] + s[1..];
    } else {
      spaces := [];
    }
  }

  predicate IsDecimal(s: Text, x: int) {
    s != [] && AllDigits(s) && x == Positional(s)
  }

  // Decimal digits, with a minus sign in front if there may be one.
  predicate IsNumber(t: Text, signed: bool, x: int) {
    IsDecimal(t, x) || (signed && t != [] && t[0] == 0x2D && IsDecimal(t[1..], -x))
  }

  // A number with space in front.
  ghost predicate IsNumeral(s: Text, signed: bool, x: int) {
    exists spaces, t :: AllSpaces(spaces) && s == spaces + t && IsNumber(t, signed, x)
  }

  lemma FromCharsMeans(s: Text, lo: int, hi: int, x: int)
    requires lo <= 0 <= hi
    ensures FromChars(s, lo, hi) == Some(x) <==> lo <= x <= hi && IsNumber(s, lo < 0, x)
  {
    if s != [] && s[0] == MINUS {
      assert !IsDigit(s[0]);
      if AllDigits(s[1..]) {
        DigitsValueIsPositional(s[1..]);
      }
    } else if AllDigits(s) {
      DigitsValueIsPositional(s);
    }
  }

  lemma NumberHasNoSpace(t: Text, signed: bool, x: int)
    requires IsNumber(t, signed, x)
    ensures t != [] && !IsSpace(t[0])
  {
    assert IsDecimal(t, x) ==> IsDigit(t[0]);
  }

  lemma NumeralIsTrimmed(s: Text, signed: bool, x: int)
    ensures IsNumeral(s, signed, x) <==> IsNumber(TrimFront(s), signed, x)
  {
    if IsNumeral(s, signed, x) {
      var spaces, t :| AllSpaces(spaces) && s == spaces + t && IsNumber(t, signed, x);
      NumberHasNoSpace(t, signed, x);
      TrimFrontMeans(spaces, t);
    }
    if IsNumber(TrimFront(s), signed, x) {
      var spaces := SpacesInFront(s);
    }
  }

  // The integer parser reads the numerals in its range, and nothing else.
  lemma ParseIntMeans(s: Text, lo: int, hi: int, x: int)
    requires lo <= 0 <= hi
    ensures ParseInt(s, lo, hi) == Some(x) <==> lo <= x <= hi && IsNumeral(s, lo < 0, x)
  {
    FromCharsMeans(TrimFront(s), lo, hi, x);
    NumeralIsTrimmed(s, lo < 0, x);
  }

  // ----- splitting

  predicate IsSetting(format: Text, key: Text, tag: Text, value: Text) {
    format == key + [0x3D] + tag + [0x3A] + value && 0x3D !in key && 0x3A !in tag && tag != []
  }

  // The key ends at the first '=', the tag at the first ':' after it.  Only two tags allow for no value.
  lemma SettingIsSplit(format: Text, key: Text, tag: Text, value: Text)
    requires IsSetting(format, key, tag, value)
    ensures DataFromString(format)
         == if value == [] && tag != Ascii("0") && tag != Ascii("13") then Null
            else ValueFromString(AsciiToUtf16(key), Strtol(tag), value)
  {
    var rest := tag + [COLON] + value;
    assert format == key + [EQUALS] + rest;
    FindAfter(key, EQUALS, rest);
    FindAfter(tag, COLON, value);
    assert format[..|key|] == key && format[|key| + 1..] == rest;
    assert rest[..|tag|] == tag && rest[|tag| + 1..] == value;
    StringTags();
  }

  lemma StringTags()
    ensures Digits(0) == Ascii("0") && Digits(13) == Ascii("13")
  {
    assert Digits(13) == Digits(1) + [0x33];
  }

  lemma AroundFirst(s: Text, c: Byte, i: nat)
    requires i < |s| && s[i] == c
    ensures s == s[..i] + [c] + s[i + 1..]
  {
  }

  lemma Regroup(key: Text, tag: Text, value: Text)
    ensures key + [0x3D] + (tag + [0x3A] + value) == key + [0x3D] + tag + [0x3A] + value
  {
  }

  lemma BothAreFound(format: Text)
    requires DataFromString(format) != Null
    ensures var equals := Find(format, EQUALS);
      && equals < |format|
      && var colon := Find(format[equals + 1..], COLON);
      0 < colon < |format[equals + 1..]|
  {
  }

  // What does not split so is no setting.
  lemma OthersAreNull(format: Text) returns (key: Text, tag: Text, value: Text)
    requires DataFromString(format) != Null
    ensures IsSetting(format, key, tag, value)
  {
    BothAreFound(format);
    var equals := Find(format, EQUALS);
    var rest := format[equals + 1..];
    var colon := Find(rest, COLON);
    AroundFirst(format, EQUALS, equals);
    AroundFirst(rest, COLON, colon);
    key, tag, value := format[..equals], rest[..colon], rest[colon + 1..];
    Regroup(key, tag, value);
  }

  // The number a tag begins with, after space and a sign; zero if there is none.
  lemma TagMeans(spaces: Text, sign: Text, digits: Text, junk: Text)
    requires AllSpaces(spaces) && sign in {[], [0x2B], [0x2D]} && AllDigits(digits)
    requires (junk != [] ==> !IsDigit(junk[0]))
    requires sign == [] && digits == [] && junk != [] ==> !IsSpace(junk[0]) && junk[0] != 0x2B && junk[0] != 0x2D
    ensures Strtol(spaces + (sign + (digits + junk))) == (if sign == [0x2D] then -1 else 1) * Positional(digits)
  {
    var rest := sign + (digits + junk);
    if digits != [] {
      assert IsDigit(digits[0]);
    }
    TrimFrontMeans(spaces, rest);
    LeadingDigitsMeans(digits, junk);
    DigitsValueIsPositional(digits);
    if sign == [] {
      assert rest == digits + junk;
    } else {
      assert rest[1..] == digits + junk;
    }
  }

  lemma {:induction false} LeadingDigitsMeans(digits: Text, junk: Text)
    requires AllDigits(digits) && (junk != [] ==> !IsDigit(junk[0]))
    ensures LeadingDigits(digits + junk) == digits
  {
    if digits == [] {
      assert digits + junk == junk;
    } else {
      assert IsDigit(digits[0]);
      assert (digits + junk)[1..] == digits[1..] + junk;
      LeadingDigitsMeans(digits[1..], junk);
      assert digits == [digits[0]] + digits[1..];
    }
  }

  // ----- the values of each tag

  function Setting(key: Text, tag: string, value: Text): Text
    requires forall i :: 0 <= i < |tag| ==> tag[i] <= '~'
  {
    key + [0x3D] + Ascii(tag) + [0x3A] + value
  }

  lemma Tagged(key: Text, tag: string, n: nat, value: Text)
    requires 0x3D !in key && |tag| > 0 && forall i :: 0 <= i < |tag| ==> '0' <= tag[i] <= '9'
    requires AllDigits(Ascii(tag)) && Positional(Ascii(tag)) == n
    ensures DataFromString(Setting(key, tag, value))
         == if value == [] && Ascii(tag) != Ascii("0") && Ascii(tag) != Ascii("13") then Null
            else ValueFromString(AsciiToUtf16(key), n, value)
  {
    SettingIsSplit(Setting(key, tag, value), key, Ascii(tag), value);
    TagMeans([], [], Ascii(tag), []);
    assert [] + ([] + (Ascii(tag) + [])) == Ascii(tag);
  }

  lemma OneDigit(c: Byte)
    requires IsDigit(c)
    ensures AllDigits([c]) && Positional([c]) == c - 0x30
  {
    assert Power(0) == 1 && Positional([]) == 0;
  }

  lemma EmptyIsNoNumeral(signed: bool, x: int)
    ensures !IsNumeral([], signed, x)
  {
  }

  lemma S32Setting(key: Text, value: Text, x: Int32)
    requires 0x3D !in key
    ensures DataFromString(Setting(key, "1", value)) == Parsed(Entry(AsciiToUtf16(key), S32Value(x)))
       <==> IsNumeral(value, true, x)
  {
    OneDigit(0x31);
    assert Ascii("1") == [0x31];
    Tagged(key, "1", 1, value);
    ParseIntMeans(value, -0x8000_0000, 0x7FFF_FFFF, x);
    EmptyIsNoNumeral(true, x);
  }

  lemma U64Setting(key: Text, value: Text, x: UInt64)
    requires 0x3D !in key
    ensures DataFromString(Setting(key, "8", value)) == Parsed(Entry(AsciiToUtf16(key), U64Value(x)))
       <==> IsNumeral(value, false, x)
  {
    OneDigit(0x38);
    assert Ascii("8") == [0x38];
    Tagged(key, "8", 8, value);
    ParseIntMeans(value, 0, 0xFFFF_FFFF_FFFF_FFFF, x);
    EmptyIsNoNumeral(false, x);
  }

  lemma ObjIdMeans(key: seq<Unit>, value: Text, x: Int64)
    ensures ValueFromString(key, 9, value) == Parsed(Entry(key, ObjIdValue(x))) <==> IsNumeral(value, true, x)
    ensures value == [] ==> !IsNumeral(value, true, x)
  {
    ParseIntMeans(value, -0x8000_0000_0000_0000, 0x7FFF_FFFF_FFFF_FFFF, x);
    EmptyIsNoNumeral(true, x);
  }

  lemma ObjIdSetting(key: Text, value: Text, x: Int64)
    requires 0x3D !in key
    ensures DataFromString(Setting(key, "9", value)) == Parsed(Entry(AsciiToUtf16(key), ObjIdValue(x)))
       <==> IsNumeral(value, true, x)
  {
    OneDigit(0x39);
    assert Ascii("9") == [0x39];
    Tagged(key, "9", 9, value);
    ObjIdMeans(AsciiToUtf16(key), value, x);
  }

  lemma WordsAreNoNumbers(hi: int)
    requires hi >= 0
    ensures ParseInt(TRUE_TEXT, 0, hi) == None && ParseInt(FALSE_TEXT, 0, hi) == None
    ensures TRUE_TEXT == Ascii("true") && FALSE_TEXT == Ascii("false")
  {
    assert !IsDigit(TRUE_TEXT[0]) && !IsDigit(FALSE_TEXT[0]);
  }

  // A truth word, or a numeral.
  lemma ParseOrWordMeans(value: Text, hi: int, x: int)
    requires hi >= 1
    ensures ParseOrWord(value, hi) == Some(x)
       <==> (value == Ascii("true") && x == 1) || (value == Ascii("false") && x == 0)
            || (0 <= x <= hi && IsNumeral(value, false, x))
  {
    WordsAreNoNumbers(hi);
    ParseIntMeans(value, 0, hi, x);
    ParseIntMeans(value, 0, hi, 1);
  }

  lemma U32Setting(key: Text, value: Text, x: UInt32)
    requires 0x3D !in key
    ensures DataFromString(Setting(key, "5", value)) == Parsed(Entry(AsciiToUtf16(key), U32Value(x)))
       <==> (value == Ascii("true") && x == 1) || (value == Ascii("false") && x == 0) || IsNumeral(value, false, x)
  {
    OneDigit(0x35);
    assert Ascii("5") == [0x35];
    Tagged(key, "5", 5, value);
    ParseOrWordMeans(value, 0xFFFF_FFFF, x);
    EmptyIsNoNumeral(false, x);
  }

  // A truth word, or a number that fits a byte and is read as true unless it is zero.
  ghost predicate IsTruth(value: Text, b: bool) {
    value == Ascii(if b then "true" else "false")
    || exists x :: 0 <= x <= 0xFF && IsNumeral(value, false, x) && b == (x != 0)
  }

  lemma TruthMeans(value: Text, b: bool)
    ensures IsTruth(value, b) <==> exists x :: ParseOrWord(value, 0xFF) == Some(x) && b == (x != 0)
  {
    forall x
      ensures ParseOrWord(value, 0xFF) == Some(x)
         <==> (value == Ascii("true") && x == 1) || (value == Ascii("false") && x == 0)
              || (0 <= x <= 0xFF && IsNumeral(value, false, x))
    {
      ParseOrWordMeans(value, 0xFF, x);
    }
  }

  lemma BoolSetting(key: Text, value: Text, b: bool)
    requires 0x3D !in key
    ensures DataFromString(Setting(key, "7", value)) == Parsed(Entry(AsciiToUtf16(key), BoolValue(b)))
       <==> IsTruth(value, b)
  {
    OneDigit(0x37);
    assert Ascii("7") == [0x37];
    Tagged(key, "7", 7, value);
    TruthMeans(value, b);
    assert ParseOrWord([], 0xFF) == None;
  }

  lemma Utf16Setting(key: Text, value: Text)
    requires 0x3D !in key
    ensures DataFromString(Setting(key, "0", value)) == Parsed(Entry(AsciiToUtf16(key), Utf16Value(Decode(value))))
  {
    OneDigit(0x30);
    assert Ascii("0") == [0x30];
    Tagged(key, "0", 0, value);
  }

  lemma TwoDigits(a: Byte, b: Byte)
    requires IsDigit(a) && IsDigit(b)
    ensures AllDigits([a, b]) && Positional([a, b]) == 10 * (a - 0x30) + (b - 0x30)
  {
    OneDigit(a);
    PositionalAppend([a], b);
    assert [a] + [b] == [a, b];
  }

  lemma Utf8Setting(key: Text, value: Text)
    requires 0x3D !in key
    ensures DataFromString(Setting(key, "13", value)) == Parsed(Entry(AsciiToUtf16(key), Utf8Value(UpTo(value, 0))))
  {
    TwoDigits(0x31, 0x33);
    assert Ascii("13") == [0x31, 0x33];
    assert ValueFromString(AsciiToUtf16(key), 13, value) == Parsed(Entry(AsciiToUtf16(key), Utf8Value(UpTo(value, 0))));
    Tagged(key, "13", 13, value);
  }

  lemma FloatSetting(key: Text, value: Text)
    requires 0x3D !in key && value != []
    ensures DataFromString(Setting(key, "3", value)) == FloatingPoint(AsciiToUtf16(key))
    ensures DataFromString(Setting(key, "4", value)) == FloatingPoint(AsciiToUtf16(key))
  {
    OneDigit(0x33);
    OneDigit(0x34);
    assert Ascii("3") == [0x33] && Ascii("4") == [0x34];
    Tagged(key, "3", 3, value);
    Tagged(key, "4", 4, value);
  }

  lemma UnknownTag(format: Text, key: Text, tag: Text, value: Text)
    requires IsSetting(format, key, tag, value) && Strtol(tag) !in {0, 1, 3, 4, 5, 7, 8, 9, 13}
    ensures DataFromString(format) == Null
  {
    SettingIsSplit(format, key, tag, value);
  }

  // A key is widened byte by byte; what is no ASCII character, or NUL, is replaced.
  lemma KeyMeans(key: Text, i: nat)
    requires i < |key|
    ensures AsciiToUtf16(key)[i] == if 1 <= key[i] <= 0x7F then key[i] else 0xFFFD
  {
  }

  // ----- printing without the key or the tag

  lemma PartsOfString(e: Entry, includeTypeId: bool)
    ensures GetString(e, true, includeTypeId) == Encode(e.key) + [0x3D] + GetString(e, false, includeTypeId)
    ensures GetString(e, false, true) == Digits(TypeOf(e.value)) + [0x3A] + GetString(e, false, false)
    ensures GetString(e, false, false) == ValueString(e.value)
  {
  }
}
