/**
  The bytes of AMF3 as sections 1.3.1, 1.3.2 and 3.1 to 3.11 of Adobe's AMF 3 specification lay them out, read back
  without going through a wire tree (dCommon/AMFDeserialize.cpp, dCommon/Amf3.h), and streams that end too early.
 */
module AmfBytes {
  import opened Basics
  import opened AmfWire

  // ----- numbers

  // Seven bits in each byte that asks for more, and eight in the fourth.
  lemma OneByte(d: nat, rest: Bytes, table: seq<Bytes>)
    requires d < 0x80
    ensures ReadU29([d] + rest, table) == Ok(d, rest, table)
  {
    assert ([d] + rest)[1..] == rest;
  }

  lemma TwoBytes(c: nat, d: nat, rest: Bytes, table: seq<Bytes>)
    requires c < 0x80 && d < 0x80
    ensures ReadU29([0x80 + c, d] + rest, table) == Ok(c * 0x80 + d, rest, table)
  {
    var b := [0x80 + c, d] + rest;
    assert b[1..][1..] == rest && b[1..][0] == d;
  }

  lemma ThreeBytes(b: nat, c: nat, d: nat, rest: Bytes, table: seq<Bytes>)
    requires b < 0x80 && c < 0x80 && d < 0x80
    ensures ReadU29([0x80 + b, 0x80 + c, d] + rest, table) == Ok(b * 0x4000 + c * 0x80 + d, rest, table)
  {
    var all := [0x80 + b, 0x80 + c, d] + rest;
    assert all[1..][0] == 0x80 + c && all[1..][1..][0] == d && all[1..][1..][1..] == rest;
  }

  lemma FourBytes(a: nat, b: nat, c: nat, d: nat, rest: Bytes, table: seq<Bytes>)
    requires a < 0x80 && b < 0x80 && c < 0x80 && d < 0x100
    ensures ReadU29([0x80 + a, 0x80 + b, 0x80 + c, d] + rest, table)
         == Ok(a * 0x40_0000 + b * 0x8000 + c * 0x100 + d, rest, table)
  {
    var all := [0x80 + a, 0x80 + b, 0x80 + c, d] + rest;
    var tail := all[1..][1..][1..];
    assert all[1..][0] == 0x80 + b && all[1..][1..][0] == 0x80 + c && tail[0] == d && tail[1..] == rest;
    assert ReadU29(all, table) == ReadU29From(tail, 3, (a * 0x80 + b) * 0x80 + c, table);
  }

  // ----- values

  lemma Marked(marker: Byte, rest: Bytes)
    ensures ([marker] + rest)[0] == marker && ([marker] + rest)[1..] == rest
  {
  }

  lemma MarkersMean(rest: Bytes, table: seq<Bytes>)
    ensures ReadValue([0x00] + rest, table) == Ok(Undefined, rest, table)
    ensures ReadValue([0x01] + rest, table) == Ok(Null, rest, table)
    ensures ReadValue([0x02] + rest, table) == Ok(False, rest, table)
    ensures ReadValue([0x03] + rest, table) == Ok(True, rest, table)
  {
    Marked(0, rest);
    Marked(1, rest);
    Marked(2, rest);
    Marked(3, rest);
  }

  // The values of the format that the game does not use, and bytes that mark nothing.
  lemma OtherMarkersFail(marker: Byte, rest: Bytes, table: seq<Bytes>)
    requires marker in {0x07, 0x08} || marker >= 0x0A
    ensures ReadValue([marker] + rest, table)
         == Err(if marker <= 0x11 then UnsupportedMarker(marker) else InvalidMarker(marker))
  {
    Marked(marker, rest);
  }

  lemma IntegerMeans(b: Bytes, n: nat, rest: Bytes, table: seq<Bytes>)
    requires ReadU29(b, table) == Ok(n, rest, table)
    ensures n < TWO_29 && ReadValue([0x04] + b, table) == Ok(Integer(n), rest, table)
  {
    U29Bounded(b, table);
    Marked(4, b);
  }

  lemma DoubleMeans(raw: Raw64, rest: Bytes, table: seq<Bytes>)
    ensures ReadValue([0x05] + (raw + rest), table) == Ok(Double(raw), rest, table)
  {
    Marked(5, raw + rest);
    assert (raw + rest)[..8] == raw && (raw + rest)[8..] == rest;
  }

  // An odd number is twice the length of a string that follows, which later ones can refer to unless it is empty.
  lemma StringMeans(b: Bytes, s: Bytes, rest: Bytes, table: seq<Bytes>)
    requires ReadU29(b, table) == Ok(|s| * 2 + 1, s + rest, table)
    ensures ReadText(b, table) == Ok(s, rest, if s == [] then table else table + [s])
    ensures ReadValue([0x06] + b, table) == Ok(Str(s), rest, if s == [] then table else table + [s])
  {
    Marked(6, b);
    assert (s + rest)[..|s|] == s && (s + rest)[|s|..] == rest;
  }

  // An even number is twice the position of an earlier string.
  lemma ReferenceMeans(b: Bytes, i: nat, rest: Bytes, table: seq<Bytes>)
    requires ReadU29(b, table) == Ok(i * 2, rest, table)
    ensures i < |table| ==> ReadText(b, table) == Ok(table[i], rest, table)
    ensures i < |table| ==> ReadValue([0x06] + b, table) == Ok(Str(table[i]), rest, table)
    ensures i >= |table| ==> ReadValue([0x06] + b, table) == Err(BadReference(i))
  {
    Marked(6, b);
    assert i * 2 / 2 == i && i * 2 % 2 == 0;
  }

  // An array without keys: its size, the empty key, and its elements.
  lemma ArrayMeans(b: Bytes, n: nat, elements: Bytes, table: seq<Bytes>)
    requires ReadU29(b, table) == Ok(n * 2 + 1, [0x01] + elements, table)
    ensures ReadValue([0x09] + b, table)
         == match ReadDense(elements, table, n, [])
            case Err(e) => Err(e)
            case Ok(dense, rest, t) => Ok(Array(map[], dense), rest, t)
  {
    MarkedArray(b, table);
    SizedArray(b, [0x01] + elements, n, table);
    ReadEmptyKey(elements, table, map[]);
  }

  lemma NextElement(b: Bytes, v: Value, rest: Bytes, table: seq<Bytes>, n: nat, dense: seq<Value>)
    requires n > 0 && ReadValue(b, table) == Ok(v, rest, table)
    ensures ReadDense(b, table, n, dense) == ReadDense(rest, table, n - 1, dense + [v])
  {
  }

  lemma TwoElements(b: Bytes, v: Value, middle: Bytes, w: Value, rest: Bytes, table: seq<Bytes>, n: nat)
    requires n == 2 && ReadValue(b, table) == Ok(v, middle, table) && ReadValue(middle, table) == Ok(w, rest, table)
    ensures ReadDense(b, table, n, []) == Ok([v, w], rest, table)
  {
    NextElement(b, v, middle, table, n, []);
    NextElement(middle, w, rest, table, n - 1, [] + [v]);
    assert [] + [v] + [w] == [v, w];
  }

  // Two elements, the second of which is the later one.
  lemma PairOfValues(b: Bytes, v: Value, middle: Bytes, w: Value, rest: Bytes, table: seq<Bytes>)
    requires ReadValue(b, table) == Ok(v, middle, table) && ReadValue(middle, table) == Ok(w, rest, table)
    ensures ReadValue([0x09] + ([0x05] + ([0x01] + b)), table) == Ok(Array(map[], [v, w]), rest, table)
  {
    var n := 2;
    OneByte(2 * n + 1, [0x01] + b, table);
    TwoElements(b, v, middle, w, rest, table, n);
    ArrayMeans([0x05] + ([0x01] + b), n, b, table);
  }

  // One key with its value.
  lemma OneKey(key: Byte, rest: Bytes, table: seq<Bytes>)
    ensures ReadAssoc([0x03, key, 0x03, 0x01] + rest, table, map[]) == Ok(map[[key] := True], rest, table + [[key]])
  {
    var tail := [0x03] + ([0x01] + rest);
    OneByte(3, [key] + tail, table);
    StringMeans([0x03] + ([key] + tail), [key], tail, table);
    MarkersMean([0x01] + rest, table + [[key]]);
    ReadEmptyKey(rest, table + [[key]], map[[key] := True]);
    assert [0x03, key, 0x03, 0x01] + rest == [0x03] + ([key] + tail);
    assert map[][[key] := True] == map[[key] := True];
  }

  // ----- bytes that come later

  // What follows in the stream has no part in what is read.
  predicate Extends<T(==)>(r: Result<T>, longer: Result<T>, more: Bytes) {
    r.Ok? ==> longer == Ok(r.value, r.rest + more, r.table)
  }

  lemma {:induction false} LaterNumber(b: Bytes, read: nat, acc: nat, more: Bytes, table: seq<Bytes>)
    requires read <= 3
    ensures Extends(ReadU29From(b, read, acc, table), ReadU29From(b + more, read, acc, table), more)
    decreases 3 - read
  {
    if b != [] {
      assert (b + more)[0] == b[0] && (b + more)[1..] == b[1..] + more;
      if read < 3 && b[0] >= 0x80 {
        LaterNumber(b[1..], read + 1, acc * 0x80 + (b[0] - 0x80), more, table);
      }
    }
  }

  lemma LaterText(b: Bytes, more: Bytes, table: seq<Bytes>)
    ensures Extends(ReadText(b, table), ReadText(b + more, table), more)
  {
    LaterNumber(b, 0, 0, more, table);
    var n := ReadU29(b, table);
    if n.Ok? && n.value % 2 == 1 && n.value / 2 <= |n.rest| {
      var length := n.value / 2;
      assert (n.rest + more)[..length] == n.rest[..length];
      assert (n.rest + more)[length..] == n.rest[length..] + more;
    }
  }

  lemma {:induction false} LaterValue(b: Bytes, more: Bytes, table: seq<Bytes>)
    ensures Extends(ReadValue(b, table), ReadValue(b + more, table), more)
    decreases |b|, 0
  {
    if b != [] {
      var rest := b[1..];
      assert (b + more)[0] == b[0] && (b + more)[1..] == rest + more;
      if b[0] == 4 {
        LaterNumber(rest, 0, 0, more, table);
      } else if b[0] == 5 {
        LaterDouble(rest, more, table);
      } else if b[0] == 6 {
        LaterText(rest, more, table);
      } else if b[0] == 9 {
        LaterArray(rest, more, table);
      }
    }
  }

  lemma LaterDouble(b: Bytes, more: Bytes, table: seq<Bytes>)
    ensures Extends(DoubleBody(b, table), DoubleBody(b + more, table), more)
  {
    if |b| >= 8 {
      assert (b + more)[..8] == b[..8] && (b + more)[8..] == b[8..] + more;
    }
  }

  lemma {:induction false} LaterArray(b: Bytes, more: Bytes, table: seq<Bytes>)
    ensures Extends(ArrayOf(b, table), ArrayOf(b + more, table), more)
    decreases |b|, 3
  {
    LaterNumber(b, 0, 0, more, table);
    var n := ReadU29(b, table);
    if n.Ok? {
      LaterBody(n.rest, more, table, n.value / 2);
    }
  }

  lemma {:induction false} LaterBody(b: Bytes, more: Bytes, table: seq<Bytes>, n: nat)
    ensures Extends(ReadArrayBody(b, table, n), ReadArrayBody(b + more, table, n), more)
    decreases |b|, 2
  {
    LaterAssoc(b, more, table, map[]);
    var a := ReadAssoc(b, table, map[]);
    if a.Ok? {
      LaterDense(a.rest, more, a.table, n, []);
    }
  }

  lemma {:induction false} LaterAssoc(b: Bytes, more: Bytes, table: seq<Bytes>, assoc: map<Bytes, Value>)
    ensures Extends(ReadAssoc(b, table, assoc), ReadAssoc(b + more, table, assoc), more)
    decreases |b|, 1
  {
    LaterText(b, more, table);
    var k := ReadText(b, table);
    if k.Ok? && k.value != [] {
      LaterValue(k.rest, more, k.table);
      var v := ReadValue(k.rest, k.table);
      if v.Ok? {
        LaterAssoc(v.rest, more, v.table, assoc[k.value := v.value]);
      }
    }
  }

  lemma {:induction false} LaterDense(b: Bytes, more: Bytes, table: seq<Bytes>, n: nat, dense: seq<Value>)
    ensures Extends(ReadDense(b, table, n, dense), ReadDense(b + more, table, n, dense), more)
    decreases |b|, 1
  {
    if n > 0 {
      LaterValue(b, more, table);
      var v := ReadValue(b, table);
      if v.Ok? {
        LaterDense(v.rest, more, v.table, n - 1, dense + [v.value]);
      }
    }
  }

  // The bytes of a value that end too early, wherever they do, are no value.
  lemma CutIsNotRead(b: Bytes, n: nat, table: seq<Bytes>)
    requires n < |b| && ReadValue(b, table).Ok? && ReadValue(b, table).rest == []
    ensures ReadValue(b[..n], table).Err?
  {
    LaterValue(b[..n], b[n..], table);
    assert b[..n] + b[n..] == b;
  }
}
