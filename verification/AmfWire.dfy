/**
  AMF3 values (dCommon/Amf3.h), their byte encodings, and the decoder's function on bytes
  (dCommon/AmfSerialize.cpp, dCommon/AMFDeserialize.cpp).

  An encoding is described by a `Wire` tree, which records the choices that the format leaves open: the order
  of the associative part, and whether a string is spelled out or refers to an earlier one.
 */
module AmfWire {
  import opened Basics

  type Bytes = seq<Byte>
  type Raw64 = s: Bytes | |s| == 8 witness [0, 0, 0, 0, 0, 0, 0, 0]

  const TWO_28: nat := 0x1000_0000
  const TWO_29: nat := 0x2000_0000

  // The associative part is an unordered map, the dense part a vector.
  datatype Value =
    | Undefined
    | Null
    | False
    | True
    | Integer(i: Int32)
    | Double(raw: Raw64)
    | Str(s: Bytes)
    | Array(assoc: map<Bytes, Value>, dense: seq<Value>)

  datatype WireText = Inline(s: Bytes) | Reference(index: nat)

  datatype Pair = Pair(key: WireText, value: Wire)

  datatype Wire =
    | WUndefined
    | WNull
    | WFalse
    | WTrue
    | WInteger(v: nat)
    | WDouble(raw: Raw64)
    | WString(text: WireText)
    | WArray(assoc: seq<Pair>, dense: seq<Wire>)

  // ----- variable-length integers

  // A byte with its continuation bit set.
  function More(v: nat): Byte {
    v % 128 + 128
  }

  // Bits above the 29th are dropped by the four-byte form.
  function U29(v: nat): (bytes: Bytes)
    ensures 1 <= |bytes| <= 4
  {
    if v < 0x80 then [v]
    else if v < 0x4000 then [More(v / 0x80), v % 0x80]
    else if v < 0x20_0000 then [More(v / 0x4000), More(v / 0x80), v % 0x80]
    else [More(v / 0x40_0000), More(v / 0x8000), More(v / 0x100), v % 0x100]
  }

  datatype Error =
    | EndOfStream
    | UnsupportedMarker(marker: Byte)
    | InvalidMarker(marker: Byte)
    | BadReference(index: nat)

  datatype Result<+T> = Ok(value: T, rest: Bytes, table: seq<Bytes>) | Err(error: Error)

  // The first three bytes give seven bits each while they ask for more, the fourth gives eight.
  function ReadU29From(b: Bytes, read: nat, acc: nat, table: seq<Bytes>): (r: Result<nat>)
    requires read <= 3
    ensures r.Ok? ==> |r.rest| < |b| && r.table == table
    decreases 3 - read
  {
    if b == [] then Err(EndOfStream)
    else if read == 3 then Ok(acc * 0x100 + b[0], b[1..], table)
    else if b[0] < 0x80 then Ok(acc * 0x80 + b[0], b[1..], table)
    else ReadU29From(b[1..], read + 1, acc * 0x80 + (b[0] - 0x80), table)
  }

  function ReadU29(b: Bytes, table: seq<Bytes>): (r: Result<nat>)
    ensures r.Ok? ==> |r.rest| < |b| && r.table == table
  {
    ReadU29From(b, 0, 0, table)
  }

  lemma U29RoundTrip(v: nat, rest: Bytes, table: seq<Bytes>)
    requires v < TWO_32
    ensures ReadU29(U29(v) + rest, table) == Ok(v % TWO_29, rest, table)
  {
    if v < 0x20_0000 {
      ShortU29RoundTrip(v, rest, table);
    } else {
      LongU29RoundTrip(v, rest, table);
    }
  }

  lemma ShortU29RoundTrip(v: nat, rest: Bytes, table: seq<Bytes>)
    requires v < 0x20_0000
    ensures ReadU29(U29(v) + rest, table) == Ok(v, rest, table)
  {
    var b := U29(v) + rest;
    if v < 0x80 {
      assert b[1..] == rest;
    } else if v < 0x4000 {
      assert b[1..][1..] == rest;
    } else {
      assert v / 0x80 == v / 0x4000 * 0x80 + v / 0x80 % 0x80;
      assert b[1..][1..][1..] == rest;
    }
  }

  lemma LongU29RoundTrip(v: nat, rest: Bytes, table: seq<Bytes>)
    requires 0x20_0000 <= v < TWO_32
    ensures ReadU29(U29(v) + rest, table) == Ok(v % TWO_29, rest, table)
  {
    var b := U29(v) + rest;
    assert b[1..][1..][1..][1..] == rest;
    SplitU29(v);
  }

  lemma SplitU29(v: nat)
    ensures ((v / 0x40_0000 % 0x80 * 0x80 + v / 0x8000 % 0x80) * 0x80 + v / 0x100 % 0x80) * 0x100 + v % 0x100
         == v % TWO_29
  {
    assert v / 0x100 / 0x80 == v / 0x8000;
    assert v / 0x8000 / 0x80 == v / 0x40_0000;
    assert v / 0x40_0000 / 0x80 == v / TWO_29;
  }

  lemma U29Bounded(b: Bytes, table: seq<Bytes>)
    ensures ReadU29(b, table).Ok? ==> ReadU29(b, table).value < TWO_29
  {
  }

  lemma DigitsOfU29(d1: nat, d2: nat, d3: nat, d4: nat, v: nat)
    requires d1 < 0x80 && d2 < 0x80 && d3 < 0x80 && d4 < 0x100
    requires v == ((d1 * 0x80 + d2) * 0x80 + d3) * 0x100 + d4
    ensures d1 == v / 0x40_0000 && d2 == v / 0x8000 % 0x80 && d3 == v / 0x100 % 0x80 && d4 == v % 0x100
  {
    assert v / 0x100 == (d1 * 0x80 + d2) * 0x80 + d3;
    assert v / 0x8000 == v / 0x100 / 0x80 == d1 * 0x80 + d2;
    assert v / 0x40_0000 == v / 0x8000 / 0x80;
  }

  // No other encoding of a number below 2^29 is as short as the one that is written.
  lemma U29IsShortest(v: nat, b: Bytes, table: seq<Bytes>)
    requires v < TWO_29
    requires ReadU29(b, table) == Ok(v, [], table)
    ensures |b| >= |U29(v)|
    ensures |b| == |U29(v)| ==> b == U29(v)
  {
    if b[0] < 0x80 {
      OneByteU29(v, b, table);
    } else if b[1..][0] < 0x80 {
      TwoByteU29(v, b, table);
    } else if b[1..][1..][0] < 0x80 {
      ThreeByteU29(v, b, table);
    } else {
      FourByteU29(v, b, table);
    }
  }

  lemma OneByteU29(v: nat, b: Bytes, table: seq<Bytes>)
    requires |b| >= 1 && b[0] < 0x80 && ReadU29(b, table) == Ok(v, [], table)
    ensures v < 0x80 && b == U29(v)
  {
    assert b == [b[0]] + b[1..];
  }

  lemma TwoByteU29(v: nat, b: Bytes, table: seq<Bytes>)
    requires |b| >= 2 && b[0] >= 0x80 && b[1] < 0x80 && ReadU29(b, table) == Ok(v, [], table)
    ensures |b| == 2 && v < 0x4000 && (v >= 0x80 ==> b == U29(v))
  {
    var d: int := b[0] - 0x80;
    assert b == [b[0], b[1]] + b[1..][1..];
    assert v == d * 0x80 + b[1] && v / 0x80 == d;
  }

  lemma ThreeByteU29(v: nat, b: Bytes, table: seq<Bytes>)
    requires |b| >= 3 && b[0] >= 0x80 && b[1] >= 0x80 && b[2] < 0x80
    requires ReadU29(b, table) == Ok(v, [], table)
    ensures |b| == 3 && v < 0x20_0000 && (v >= 0x4000 ==> b == U29(v))
  {
    var d1: int, d2: int := b[0] - 0x80, b[1] - 0x80;
    assert b == [b[0], b[1], b[2]] + b[1..][1..][1..];
    assert v == (d1 * 0x80 + d2) * 0x80 + b[2];
    assert v / 0x80 == d1 * 0x80 + d2 && v / 0x4000 == v / 0x80 / 0x80;
  }

  lemma FourByteU29(v: nat, b: Bytes, table: seq<Bytes>)
    requires v < TWO_29
    requires |b| >= 3 && b[0] >= 0x80 && b[1] >= 0x80 && b[2] >= 0x80
    requires ReadU29(b, table) == Ok(v, [], table)
    ensures |b| == 4 && (v >= 0x20_0000 ==> b == U29(v))
  {
    var b3 := b[1..][1..][1..];
    var d1: int, d2: int, d3: int := b[0] - 0x80, b[1] - 0x80, b[2] - 0x80;
    assert ReadU29(b, table) == ReadU29From(b3, 3, (d1 * 0x80 + d2) * 0x80 + d3, table);
    assert b == [b[0], b[1], b[2], b[3]] + b3[1..];
    DigitsOfU29(d1, d2, d3, b[3], v);
  }

  // ----- the bytes of a wire tree

  // A length or size with the flag that says "not a reference", in 32-bit arithmetic.
  function FlagNumber(n: nat): Bytes {
    U29((n * 2 + 1) % TWO_32)
  }

  function EmitText(t: WireText): Bytes {
    match t
    case Inline(s) => FlagNumber(|s| % TWO_32) + s[..|s| % TWO_32]
    case Reference(i) => U29(i * 2)
  }

  function Emit(w: Wire): Bytes
    decreases w, 1
  {
    match w
    case WUndefined => [0]
    case WNull => [1]
    case WFalse => [2]
    case WTrue => [3]
    case WInteger(v) => [4] + U29(v)
    case WDouble(raw) => [5] + raw
    case WString(text) => [6] + EmitText(text)
    case WArray(assoc, dense) =>
      [9] + FlagNumber(|dense| % TWO_32) + EmitAssoc(assoc) + [1] + EmitDense(dense)
  }

  function EmitAssoc(pairs: seq<Pair>): Bytes
    decreases pairs, 0
  {
    if pairs == [] then [] else EmitPair(pairs[0]) + EmitAssoc(pairs[1..])
  }

  function EmitPair(p: Pair): Bytes
    decreases p, 0
  {
    EmitText(p.key) + Emit(p.value)
  }

  function EmitDense(ws: seq<Wire>): Bytes
    decreases ws, 0
  {
    if ws == [] then [] else Emit(ws[0]) + EmitDense(ws[1..])
  }

  // ----- the decoder

  function ReadText(b: Bytes, table: seq<Bytes>): (r: Result<Bytes>)
    ensures r.Ok? ==> |r.rest| < |b|
  {
    match ReadU29(b, table)
    case Err(e) => Err(e)
    case Ok(n, rest, _) =>
      var length := n / 2;
      if n % 2 == 1 then
        if length > |rest| then Err(EndOfStream)
        else Ok(rest[..length], rest[length..], if length > 0 then table + [rest[..length]] else table)
      else if length < |table| then Ok(table[length], rest, table)
      else Err(BadReference(length))
  }

  function ReadValue(b: Bytes, table: seq<Bytes>): (r: Result<Value>)
    ensures r.Ok? ==> |r.rest| < |b|
    decreases |b|, 0
  {
    if b == [] then Err(EndOfStream) else
    var marker, rest := b[0], b[1..];
    if marker == 0 then Ok(Undefined, rest, table)
    else if marker == 1 then Ok(Null, rest, table)
    else if marker == 2 then Ok(False, rest, table)
    else if marker == 3 then Ok(True, rest, table)
    else if marker == 4 then IntegerBody(rest, table)
    else if marker == 5 then DoubleBody(rest, table)
    else if marker == 6 then
      match ReadText(rest, table)
      case Err(e) => Err(e)
      case Ok(s, rest', t') => Ok(Str(s), rest', t')
    else if marker == 9 then ArrayOf(rest, table)
    else if marker <= 0x11 then Err(UnsupportedMarker(marker))
    else Err(InvalidMarker(marker))
  }

  function IntegerBody(b: Bytes, table: seq<Bytes>): (r: Result<Value>)
    ensures r.Ok? ==> |r.rest| < |b|
  {
    U29Bounded(b, table);
    match ReadU29(b, table)
    case Err(e) => Err(e)
    case Ok(n, rest, t) => Ok(Integer(n), rest, t)
  }

  function DoubleBody(b: Bytes, table: seq<Bytes>): (r: Result<Value>)
    ensures r.Ok? ==> |r.rest| < |b|
  {
    if |b| < 8 then Err(EndOfStream) else Ok(Double(b[..8]), b[8..], table)
  }

  // An array: its dense size, then its two parts.
  function ArrayOf(b: Bytes, table: seq<Bytes>): (r: Result<Value>)
    ensures r.Ok? ==> |r.rest| < |b|
    decreases |b|, 3
  {
    match ReadU29(b, table)
    case Err(e) => Err(e)
    case Ok(n, rest, _) => ReadArrayBody(rest, table, n / 2)
  }

  function ReadArrayBody(b: Bytes, table: seq<Bytes>, n: nat): (r: Result<Value>)
    ensures r.Ok? ==> |r.rest| < |b|
    decreases |b|, 2
  {
    match ReadAssoc(b, table, map[])
    case Err(e) => Err(e)
    case Ok(assoc, rest, t) =>
      match ReadDense(rest, t, n, [])
      case Err(e) => Err(e)
      case Ok(dense, rest', t') => Ok(Array(assoc, dense), rest', t')
  }

  // Keyed values until an empty key; a repeated key replaces the earlier value.
  function ReadAssoc(b: Bytes, table: seq<Bytes>, assoc: map<Bytes, Value>): (r: Result<map<Bytes, Value>>)
    ensures r.Ok? ==> |r.rest| < |b|
    decreases |b|, 1
  {
    match ReadText(b, table)
    case Err(e) => Err(e)
    case Ok(key, rest, t) =>
      if key == [] then Ok(assoc, rest, t) else
      match ReadValue(rest, t)
      case Err(e) => Err(e)
      case Ok(v, rest', t') => ReadAssoc(rest', t', assoc[key := v])
  }

  function ReadDense(b: Bytes, table: seq<Bytes>, n: nat, dense: seq<Value>): (r: Result<seq<Value>>)
    ensures r.Ok? ==> |r.rest| <= |b|
    decreases |b|, 1
  {
    if n == 0 then Ok(dense, b, table) else
    match ReadValue(b, table)
    case Err(e) => Err(e)
    case Ok(v, rest, t) => ReadDense(rest, t, n - 1, dense + [v])
  }

  // ----- what a wire tree means

  datatype Meaning<+T> = Nonsense | Means(value: T, table: seq<Bytes>)

  function TextMeaning(t: WireText, table: seq<Bytes>): Meaning<Bytes> {
    match t
    case Inline(s) => if |s| >= TWO_28 then Nonsense else Means(s, if s == [] then table else table + [s])
    case Reference(i) => if i < |table| && i < TWO_28 then Means(table[i], table) else Nonsense
  }

  // The value that a wire tree stands for when `table` holds the strings spelled out so far.
  function WireMeaning(w: Wire, table: seq<Bytes>): Meaning<Value>
    decreases w, 1
  {
    match w
    case WUndefined => Means(Undefined, table)
    case WNull => Means(Null, table)
    case WFalse => Means(False, table)
    case WTrue => Means(True, table)
    case WInteger(v) => if v < TWO_29 then Means(Integer(v), table) else Nonsense
    case WDouble(raw) => Means(Double(raw), table)
    case WString(text) =>
      (match TextMeaning(text, table)
       case Nonsense => Nonsense
       case Means(s, t) => Means(Str(s), t))
    case WArray(assoc, dense) =>
      if |dense| >= TWO_28 then Nonsense else
      match AssocMeaning(assoc, table, map[])
      case Nonsense => Nonsense
      case Means(a, t) =>
        match DenseMeaning(dense, t, [])
        case Nonsense => Nonsense
        case Means(d, t') => Means(Array(a, d), t')
  }

  function AssocMeaning(pairs: seq<Pair>, table: seq<Bytes>, assoc: map<Bytes, Value>): Meaning<map<Bytes, Value>>
    decreases pairs, 0
  {
    if pairs == [] then Means(assoc, table) else
    match PairMeaning(pairs[0], table)
    case Nonsense => Nonsense
    case Means((key, v), t) => AssocMeaning(pairs[1..], t, assoc[key := v])
  }

  // Keys must not be empty: the empty key ends the associative part.
  function PairMeaning(p: Pair, table: seq<Bytes>): Meaning<(Bytes, Value)>
    decreases p, 0
  {
    match TextMeaning(p.key, table)
    case Nonsense => Nonsense
    case Means(key, t) =>
      if key == [] then Nonsense else
      match WireMeaning(p.value, t)
      case Nonsense => Nonsense
      case Means(v, t') => Means((key, v), t')
  }

  function DenseMeaning(ws: seq<Wire>, table: seq<Bytes>, dense: seq<Value>): Meaning<seq<Value>>
    decreases ws, 0
  {
    if ws == [] then Means(dense, table) else
    match WireMeaning(ws[0], table)
    case Nonsense => Nonsense
    case Means(v, t) => DenseMeaning(ws[1..], t, dense + [v])
  }

  lemma ReadFlagNumber(n: nat, rest: Bytes, table: seq<Bytes>)
    requires n < TWO_28
    ensures ReadU29(FlagNumber(n) + rest, table) == Ok(n * 2 + 1, rest, table)
  {
    var v := n * 2 + 1;
    assert v % TWO_32 == v && v % TWO_29 == v;
    U29RoundTrip(v, rest, table);
  }

  lemma ReadInlineAfter(flag: Bytes, s: Bytes, rest: Bytes, table: seq<Bytes>)
    requires ReadU29(flag + (s + rest), table) == Ok(|s| * 2 + 1, s + rest, table)
    ensures ReadText(flag + s + rest, table) == Ok(s, rest, if s == [] then table else table + [s])
  {
    assert flag + s + rest == flag + (s + rest);
    assert (s + rest)[..|s|] == s && (s + rest)[|s|..] == rest;
  }

  lemma ReadInline(s: Bytes, rest: Bytes, table: seq<Bytes>)
    requires |s| < TWO_28
    ensures ReadText(EmitText(Inline(s)) + rest, table) == Ok(s, rest, if s == [] then table else table + [s])
  {
    var n := |s| % TWO_32;
    assert n == |s| && s[..n] == s;
    assert EmitText(Inline(s)) == FlagNumber(n) + s[..n];
    ReadFlagNumber(|s|, s + rest, table);
    ReadInlineAfter(FlagNumber(|s|), s, rest, table);
  }

  lemma ReadReferenceAfter(bytes: Bytes, i: nat, rest: Bytes, table: seq<Bytes>)
    requires i < |table|
    requires ReadU29(bytes + rest, table) == Ok(i * 2, rest, table)
    ensures ReadText(bytes + rest, table) == Ok(table[i], rest, table)
  {
  }

  lemma ReadReference(i: nat, rest: Bytes, table: seq<Bytes>)
    requires i < |table| && i < TWO_28
    ensures ReadText(EmitText(Reference(i)) + rest, table) == Ok(table[i], rest, table)
  {
    assert i * 2 % TWO_29 == i * 2;
    U29RoundTrip(i * 2, rest, table);
    ReadReferenceAfter(U29(i * 2), i, rest, table);
  }

  lemma ReadTextOfEmit(t: WireText, rest: Bytes, table: seq<Bytes>)
    requires TextMeaning(t, table).Means?
    ensures ReadText(EmitText(t) + rest, table) == Ok(TextMeaning(t, table).value, rest, TextMeaning(t, table).table)
  {
    match t
    case Inline(s) => ReadInline(s, rest, table);
    case Reference(i) => ReadReference(i, rest, table);
  }

  // Decoding b yields what m says and leaves rest.
  ghost predicate Reads<T>(r: Result<T>, m: Meaning<T>, rest: Bytes) {
    m.Means? && r == Ok(m.value, rest, m.table)
  }

  lemma ReadInteger(bytes: Bytes, v: nat, rest: Bytes, table: seq<Bytes>)
    ensures ReadU29(bytes + rest, table) == Ok(v, rest, table) && v < TWO_29
        ==> ReadValue([4] + bytes + rest, table) == Ok(Integer(v), rest, table)
  {
    assert ([4] + bytes + rest)[1..] == bytes + rest;
  }

  lemma ReadScalar(w: Wire, rest: Bytes, table: seq<Bytes>)
    requires !w.WInteger? && !w.WString? && !w.WArray?
    ensures Reads(ReadValue(Emit(w) + rest, table), WireMeaning(w, table), rest)
  {
    var b := Emit(w) + rest;
    if w.WDouble? {
      assert b[1..] == w.raw + rest;
      assert b[1..][..8] == w.raw && b[1..][8..] == rest;
    } else {
      assert b[1..] == rest;
    }
  }

  lemma ReadString(text: WireText, rest: Bytes, table: seq<Bytes>)
    requires WireMeaning(WString(text), table).Means?
    ensures Reads(ReadValue(Emit(WString(text)) + rest, table), WireMeaning(WString(text), table), rest)
  {
    var b := Emit(WString(text)) + rest;
    assert b[0] == 6 && b[1..] == EmitText(text) + rest;
    ReadTextOfEmit(text, rest, table);
  }

  // Decoding the bytes of any meaningful wire tree, with anything after them, yields its meaning and leaves
  // exactly what follows.
  lemma {:induction false} ReadOfEmit(w: Wire, rest: Bytes, table: seq<Bytes>)
    requires WireMeaning(w, table).Means?
    ensures Reads(ReadValue(Emit(w) + rest, table), WireMeaning(w, table), rest)
    decreases w, 1
  {
    if w.WString? {
      ReadString(w.text, rest, table);
    } else if w.WArray? {
      ReadOfEmitAssoc(w.assoc, EmitDense(w.dense) + rest, table, map[]);
      var t := AssocMeaning(w.assoc, table, map[]).table;
      ReadOfEmitDense(w.dense, rest, t, []);
      ReadArray(w, rest, table);
    } else if w.WInteger? {
      assert w.v % TWO_29 == w.v;
      U29RoundTrip(w.v, rest, table);
      ReadInteger(U29(w.v), w.v, rest, table);
    } else {
      ReadScalar(w, rest, table);
    }
  }

  lemma MarkedArray(b: Bytes, table: seq<Bytes>)
    ensures ReadValue([9] + b, table) == ArrayOf(b, table)
  {
    var marked := [9] + b;
    assert marked[0] == 9 && marked[1..] == b;
  }

  lemma SizedArray(b: Bytes, body: Bytes, n: nat, table: seq<Bytes>)
    requires ReadU29(b, table) == Ok(n * 2 + 1, body, table)
    ensures ArrayOf(b, table) == ReadArrayBody(body, table, n)
  {
    assert (n * 2 + 1) / 2 == n;
  }

  lemma ReadArrayAfter(flag: Bytes, body: Bytes, n: nat, table: seq<Bytes>)
    requires ReadU29(flag + body, table) == Ok(n * 2 + 1, body, table)
    ensures ReadValue([9] + flag + body, table) == ReadArrayBody(body, table, n)
  {
    assert [9] + flag + body == [9] + (flag + body);
    MarkedArray(flag + body, table);
    SizedArray(flag + body, body, n, table);
  }

  lemma EmitArray(assoc: seq<Pair>, dense: seq<Wire>, rest: Bytes)
    requires |dense| < TWO_28
    ensures Emit(WArray(assoc, dense)) + rest
         == [9] + FlagNumber(|dense|) + (EmitAssoc(assoc) + [1] + (EmitDense(dense) + rest))
  {
    var n := |dense| % TWO_32;
    assert n == |dense|;
    assert Emit(WArray(assoc, dense)) == [9] + FlagNumber(n) + EmitAssoc(assoc) + [1] + EmitDense(dense);
    ArrayBytes(FlagNumber(|dense|), EmitAssoc(assoc), EmitDense(dense), rest);
  }

  lemma ArrayBytes(flag: Bytes, assoc: Bytes, dense: Bytes, rest: Bytes)
    ensures [9] + flag + assoc + [1] + dense + rest == [9] + flag + (assoc + [1] + (dense + rest))
  {
  }

  lemma ReadArray(w: Wire, rest: Bytes, table: seq<Bytes>)
    requires w.WArray? && |w.dense| < TWO_28
    requires var tail := EmitDense(w.dense) + rest;
      && Reads(ReadAssoc(EmitAssoc(w.assoc) + [1] + tail, table, map[]), AssocMeaning(w.assoc, table, map[]), tail)
      && var t := AssocMeaning(w.assoc, table, map[]).table;
      Reads(ReadDense(tail, t, |w.dense|, []), DenseMeaning(w.dense, t, []), rest)
    ensures Reads(ReadValue(Emit(w) + rest, table), WireMeaning(w, table), rest)
  {
    var body := EmitAssoc(w.assoc) + [1] + (EmitDense(w.dense) + rest);
    EmitArray(w.assoc, w.dense, rest);
    ReadFlagNumber(|w.dense|, body, table);
    ReadArrayAfter(FlagNumber(|w.dense|), body, |w.dense|, table);
  }

  // The marker of a null value doubles as the empty key that ends the associative part.
  lemma ReadEmptyKey(rest: Bytes, table: seq<Bytes>, assoc: map<Bytes, Value>)
    ensures ReadAssoc([1] + rest, table, assoc) == Ok(assoc, rest, table)
  {
    EmptyText();
    ReadInline([], rest, table);
    EmptyKeyEnds([1] + rest, rest, table, assoc);
  }

  lemma EmptyText()
    ensures EmitText(Inline([])) == [1]
  {
    assert FlagNumber(0) == [1];
  }

  lemma EmptyKeyEnds(b: Bytes, rest: Bytes, table: seq<Bytes>, assoc: map<Bytes, Value>)
    requires ReadText(b, table) == Ok([], rest, table)
    ensures ReadAssoc(b, table, assoc) == Ok(assoc, rest, table)
  {
  }

  lemma EmitFirstPair(pairs: seq<Pair>, rest: Bytes)
    requires pairs != []
    ensures EmitAssoc(pairs) + [1] + rest == EmitPair(pairs[0]) + (EmitAssoc(pairs[1..]) + [1] + rest)
  {
  }

  lemma {:induction false} ReadOfEmitAssoc(pairs: seq<Pair>, rest: Bytes, table: seq<Bytes>, assoc: map<Bytes, Value>)
    requires AssocMeaning(pairs, table, assoc).Means?
    ensures Reads(ReadAssoc(EmitAssoc(pairs) + [1] + rest, table, assoc), AssocMeaning(pairs, table, assoc), rest)
    decreases pairs, 0
  {
    if pairs == [] {
      ReadEmptyKey(rest, table, assoc);
      assert EmitAssoc(pairs) + [1] + rest == [1] + rest;
    } else {
      var next := EmitAssoc(pairs[1..]) + [1] + rest;
      ReadOfEmitPair(pairs[0], next, table, assoc);
      EmitFirstPair(pairs, rest);
      var m := PairMeaning(pairs[0], table);
      ReadOfEmitAssoc(pairs[1..], rest, m.table, assoc[m.value.0 := m.value.1]);
    }
  }

  lemma {:induction false} ReadOfEmitPair(p: Pair, next: Bytes, table: seq<Bytes>, assoc: map<Bytes, Value>)
    requires PairMeaning(p, table).Means?
    ensures var m := PairMeaning(p, table);
      ReadAssoc(EmitPair(p) + next, table, assoc) == ReadAssoc(next, m.table, assoc[m.value.0 := m.value.1])
    decreases p, 0
  {
    assert EmitPair(p) + next == EmitText(p.key) + (Emit(p.value) + next);
    ReadTextOfEmit(p.key, Emit(p.value) + next, table);
    ReadOfEmit(p.value, next, TextMeaning(p.key, table).table);
  }

  lemma {:induction false} ReadOfEmitDense(ws: seq<Wire>, rest: Bytes, table: seq<Bytes>, dense: seq<Value>)
    requires DenseMeaning(ws, table, dense).Means?
    ensures Reads(ReadDense(EmitDense(ws) + rest, table, |ws|, dense), DenseMeaning(ws, table, dense), rest)
    decreases ws, 0
  {
    if ws == [] {
      assert EmitDense(ws) + rest == rest;
    } else {
      var next := EmitDense(ws[1..]) + rest;
      assert EmitDense(ws) + rest == Emit(ws[0]) + next;
      ReadOfEmit(ws[0], next, table);
      var m := WireMeaning(ws[0], table);
      ReadOfEmitDense(ws[1..], rest, m.table, dense + [m.value]);
    }
  }

  // ----- which values survive

  predicate TextFits(s: Bytes) {
    |s| < TWO_28
  }

  // Integers of 29 unsigned bits, lengths below 2^28, no empty key.
  predicate Canonical(v: Value) {
    match v
    case Integer(i) => 0 <= i < TWO_29
    case Str(s) => TextFits(s)
    case Array(assoc, dense) =>
      && |dense| < TWO_28
      && (forall k :: k in assoc ==> k != [] && TextFits(k) && Canonical(assoc[k]))
      && (forall i :: 0 <= i < |dense| ==> Canonical(dense[i]))
    case _ => true
  }

  // A reference-free wire tree spells a value if it lists exactly the value's parts, the associative ones in
  // any order.
  predicate Spells(w: Wire, v: Value)
    decreases w
  {
    match w
    case WUndefined => v == Undefined
    case WNull => v == Null
    case WFalse => v == False
    case WTrue => v == True
    case WInteger(n) => v.Integer? && n == v.i % TWO_32
    case WDouble(raw) => v == Double(raw)
    case WString(t) => v.Str? && t == Inline(v.s)
    case WArray(pairs, ws) =>
      && v.Array?
      && |ws| == WrittenSize(v.dense)
      && (forall i :: 0 <= i < |ws| ==> Spells(ws[i], v.dense[i]))
      && SpellsKeys(pairs, v.assoc.Keys)
      && (forall i :: 0 <= i < |pairs| ==> Spells(pairs[i].value, v.assoc[pairs[i].key.s]))
  }

  // The dense part is skipped when its 32-bit size is zero.
  function WrittenSize(dense: seq<Value>): (n: nat)
    ensures n <= |dense|
  {
    if |dense| % TWO_32 > 0 then |dense| else 0
  }

  // The keys of the pairs are spelled out, distinct, and exactly the given set.
  predicate SpellsKeys(pairs: seq<Pair>, keys: set<Bytes>) {
    && (forall i :: 0 <= i < |pairs| ==> pairs[i].key.Inline? && pairs[i].key.s in keys)
    && (forall i, j :: 0 <= i < j < |pairs| ==> pairs[i].key.s != pairs[j].key.s)
    && (forall k :: k in keys ==> exists i :: 0 <= i < |pairs| && pairs[i].key.s == k)
  }

  lemma {:induction false} SpellingMeans(w: Wire, v: Value, table: seq<Bytes>)
    requires Spells(w, v) && Canonical(v)
    ensures WireMeaning(w, table).Means? && WireMeaning(w, table).value == v
    decreases w, 1
  {
    if w.WArray? {
      AssocSpellingMeans(w.assoc, v.assoc, table, map[]);
      AllEntries(w.assoc, v.assoc, AssocMeaning(w.assoc, table, map[]).value);
      DenseSpellingMeans(w.dense, v.dense, AssocMeaning(w.assoc, table, map[]).table, []);
    }
  }

  lemma AllEntries(pairs: seq<Pair>, v: map<Bytes, Value>, m: map<Bytes, Value>)
    requires SpellsKeys(pairs, v.Keys)
    requires forall k :: k in m ==> k in v && m[k] == v[k]
    requires forall i :: 0 <= i < |pairs| ==> pairs[i].key.s in m
    ensures m == v
  {
    forall k | k in v.Keys ensures k in m {
      var i :| 0 <= i < |pairs| && pairs[i].key.s == k;
    }
  }

  lemma {:induction false} AssocSpellingMeans(pairs: seq<Pair>, v: map<Bytes, Value>, table: seq<Bytes>,
                                              assoc: map<Bytes, Value>)
    requires forall i :: 0 <= i < |pairs| ==> pairs[i].key.Inline? && pairs[i].key.s in v
    requires forall i :: 0 <= i < |pairs| ==> Spells(pairs[i].value, v[pairs[i].key.s])
    requires forall k :: k in v ==> k != [] && TextFits(k) && Canonical(v[k])
    requires forall k :: k in assoc ==> k in v && assoc[k] == v[k]
    ensures AssocMeaning(pairs, table, assoc).Means?
    ensures var m := AssocMeaning(pairs, table, assoc).value;
      && (forall k :: k in m ==> k in v && m[k] == v[k])
      && (forall k :: k in assoc ==> k in m)
      && (forall i :: 0 <= i < |pairs| ==> pairs[i].key.s in m)
    decreases pairs, 0
  {
    if pairs != [] {
      var key := pairs[0].key.s;
      PairSpellingMeans(pairs[0], v[key], table);
      var m := PairMeaning(pairs[0], table);
      AssocSpellingMeans(pairs[1..], v, m.table, assoc[key := m.value.1]);
      forall i | 0 <= i < |pairs| ensures pairs[i].key.s in AssocMeaning(pairs, table, assoc).value {
        if i > 0 {
          assert pairs[i] == pairs[1..][i - 1];
        }
      }
    }
  }

  lemma {:induction false} PairSpellingMeans(p: Pair, v: Value, table: seq<Bytes>)
    requires p.key.Inline? && p.key.s != [] && TextFits(p.key.s) && Spells(p.value, v) && Canonical(v)
    ensures PairMeaning(p, table).Means? && PairMeaning(p, table).value == (p.key.s, v)
    decreases p, 0
  {
    SpellingMeans(p.value, v, TextMeaning(p.key, table).table);
  }

  lemma {:induction false} DenseSpellingMeans(ws: seq<Wire>, vs: seq<Value>, table: seq<Bytes>, dense: seq<Value>)
    requires |ws| == |vs| && forall i :: 0 <= i < |ws| ==> Spells(ws[i], vs[i]) && Canonical(vs[i])
    ensures DenseMeaning(ws, table, dense).Means? && DenseMeaning(ws, table, dense).value == dense + vs
    decreases ws, 0
  {
    if ws != [] {
      SpellingMeans(ws[0], vs[0], table);
      DenseSpellingMeans(ws[1..], vs[1..], WireMeaning(ws[0], table).table, dense + [vs[0]]);
      assert dense + [vs[0]] + vs[1..] == dense + vs;
    }
  }

  predicate TableFits(table: seq<Bytes>) {
    forall i :: 0 <= i < |table| ==> table[i] != [] && TextFits(table[i])
  }

  lemma ReadTextFits(b: Bytes, table: seq<Bytes>)
    requires TableFits(table)
    ensures var r := ReadText(b, table); r.Ok? ==> TextFits(r.value) && TableFits(r.table)
  {
    U29Bounded(b, table);
  }

  // Whatever bytes it is given, the decoder only ever produces canonical values.
  lemma {:induction false} ReadIsCanonical(b: Bytes, table: seq<Bytes>)
    requires TableFits(table)
    ensures var r := ReadValue(b, table); r.Ok? ==> Canonical(r.value) && TableFits(r.table)
    decreases |b|, 0
  {
    if b != [] {
      var rest := b[1..];
      U29Bounded(rest, table);
      if b[0] == 6 {
        ReadTextFits(rest, table);
      } else if b[0] == 9 && ReadU29(rest, table).Ok? {
        ReadArrayIsCanonical(ReadU29(rest, table).rest, table, ReadU29(rest, table).value / 2);
      }
    }
  }

  lemma {:induction false} ReadArrayIsCanonical(b: Bytes, table: seq<Bytes>, n: nat)
    requires TableFits(table) && n < TWO_28
    ensures var r := ReadArrayBody(b, table, n); r.Ok? ==> Canonical(r.value) && TableFits(r.table)
    decreases |b|, 2
  {
    ReadAssocIsCanonical(b, table, map[]);
    var a := ReadAssoc(b, table, map[]);
    if a.Ok? {
      ReadDenseIsCanonical(a.rest, a.table, n, []);
    }
  }

  lemma {:induction false} ReadAssocIsCanonical(b: Bytes, table: seq<Bytes>, assoc: map<Bytes, Value>)
    requires TableFits(table)
    requires forall k :: k in assoc ==> k != [] && TextFits(k) && Canonical(assoc[k])
    ensures var r := ReadAssoc(b, table, assoc);
      r.Ok? ==> TableFits(r.table) && forall k :: k in r.value ==> k != [] && TextFits(k) && Canonical(r.value[k])
    decreases |b|, 1
  {
    ReadTextFits(b, table);
    var k := ReadText(b, table);
    if k.Ok? && k.value != [] {
      ReadIsCanonical(k.rest, k.table);
      var v := ReadValue(k.rest, k.table);
      if v.Ok? {
        ReadAssocIsCanonical(v.rest, v.table, assoc[k.value := v.value]);
      }
    }
  }

  lemma {:induction false} ReadDenseIsCanonical(b: Bytes, table: seq<Bytes>, n: nat, dense: seq<Value>)
    requires TableFits(table)
    requires forall i :: 0 <= i < |dense| ==> Canonical(dense[i])
    ensures var r := ReadDense(b, table, n, dense);
      r.Ok? ==> TableFits(r.table) && |r.value| == |dense| + n
                && forall i :: 0 <= i < |r.value| ==> Canonical(r.value[i])
    decreases |b|, 1
  {
    if n > 0 {
      ReadIsCanonical(b, table);
      var v := ReadValue(b, table);
      if v.Ok? {
        ReadDenseIsCanonical(v.rest, v.table, n - 1, dense + [v.value]);
      }
    }
  }

  // Reading back what was written returns the value, and exactly the bytes that follow it, if and only if the
  // value is canonical; this holds for every iteration order of the associative parts.
  lemma RoundTrip(w: Wire, v: Value, rest: Bytes)
    requires Spells(w, v)
    ensures (var r := ReadValue(Emit(w) + rest, []); r.Ok? && r.value == v && r.rest == rest) <==> Canonical(v)
  {
    ReadIsCanonical(Emit(w) + rest, []);
    if Canonical(v) {
      SpellingMeans(w, v, []);
      ReadOfEmit(w, rest, []);
    }
  }

  // Two encodings of different canonical values are never one a prefix of the other.
  lemma EncodingsArePrefixFree(w1: Wire, v1: Value, w2: Wire, v2: Value, more: Bytes)
    requires Spells(w1, v1) && Canonical(v1) && Spells(w2, v2) && Canonical(v2)
    requires Emit(w2) == Emit(w1) + more
    ensures v1 == v2 && more == []
  {
    RoundTrip(w1, v1, more);
    RoundTrip(w2, v2, []);
    assert Emit(w2) + [] == Emit(w2);
  }
}
