/**
  The AMF3 writer (dCommon/AmfSerialize.cpp) and reader (dCommon/AMFDeserialize.cpp) as they run over a bit
  stream, proved against the functions of `AmfWire`.
 */
module AmfCodec {
  import opened Basics
  import opened AmfWire

  class BitStream {
    var data: Bytes
    var readOffset: nat

    ghost predicate Valid()
      reads this
    {
      readOffset <= |data|
    }

    ghost function Unread(): Bytes
      reads this
      requires Valid()
    {
      data[readOffset..]
    }

    constructor (data: Bytes)
      ensures Valid() && Unread() == data && this.data == data
    {
      this.data, readOffset := data, 0;
    }

    method Write(bytes: Bytes)
      modifies this
      ensures data == old(data) + bytes && readOffset == old(readOffset)
    {
      data := data + bytes;
    }

    // Reads n bytes, or reports that there are not that many.
    method Read(n: nat) returns (ok: bool, bytes: Bytes)
      requires Valid()
      modifies this
      ensures Valid() && data == old(data)
      ensures ok == (n <= |old(Unread())|)
      ensures ok ==> bytes == old(Unread())[..n] && Unread() == old(Unread())[n..]
    {
      ok, bytes := readOffset + n <= |data|, [];
      if ok {
        bytes := data[readOffset..readOffset + n];
        readOffset := readOffset + n;
      }
    }
  }

  // ----- writing

  lemma MoreOfByte(x: nat)
    ensures More(x % 0x100) == More(x)
  {
  }

  lemma GroupsOf(v: nat)
    ensures v / 0x80 / 0x80 == v / 0x4000
    ensures v / 0x100 / 0x80 == v / 0x8000 && v / 0x8000 / 0x80 == v / 0x40_0000
  {
  }

  lemma LowGroup(v: nat)
    ensures v % 0x100 % 0x80 == v % 0x80
    ensures v / 0x80 > 0x7F <==> v >= 0x4000
  {
  }

  method WriteUInt29(bs: BitStream, value: nat)
    requires value < TWO_32
    modifies bs
    ensures bs.data == old(bs.data) + U29(value) && bs.readOffset == old(bs.readOffset)
  {
    GroupsOf(value);
    LowGroup(value);
    var v := value;
    var b4: Byte := v % 0x100;
    if v < 0x20_0000 {
      b4 := b4 % 0x80;
      if v > 0x7F {
        v := v / 0x80;
        MoreOfByte(v);
        var b3: Byte := More(v % 0x100);
        if v > 0x7F {
          v := v / 0x80;
          MoreOfByte(v);
          var b2: Byte := More(v % 0x100);
          bs.Write([b2]);
        }
        bs.Write([b3]);
      }
    } else {
      v := v / 0x100;
      MoreOfByte(v);
      var b3: Byte := More(v % 0x100);
      v := v / 0x80;
      MoreOfByte(v);
      var b2: Byte := More(v % 0x100);
      v := v / 0x80;
      MoreOfByte(v);
      var b1: Byte := More(v % 0x100);
      bs.Write([b1]);
      bs.Write([b2]);
      bs.Write([b3]);
    }
    bs.Write([b4]);
  }

  method WriteFlagNumber(bs: BitStream, v: nat)
    requires v < TWO_32
    modifies bs
    ensures bs.data == old(bs.data) + FlagNumber(v) && bs.readOffset == old(bs.readOffset)
  {
    WriteUInt29(bs, (v * 2 + 1) % TWO_32);
  }

  method WriteAmfString(bs: BitStream, str: Bytes)
    modifies bs
    ensures bs.data == old(bs.data) + EmitText(Inline(str)) && bs.readOffset == old(bs.readOffset)
  {
    var size := |str| % TWO_32;
    WriteFlagNumber(bs, size);
    bs.Write(str[..size]);
  }

  // The signed value is sent as its 32 bits.
  method WriteInteger(bs: BitStream, i: Int32)
    modifies bs
    ensures bs.data == old(bs.data) + U29(i % TWO_32) && bs.readOffset == old(bs.readOffset)
  {
    WriteUInt29(bs, i % TWO_32);
  }

  // Writes a value.  The wire tree that comes back records the order in which the unordered associative parts
  // happened to be visited.
  method Write(bs: BitStream, value: Value) returns (ghost w: Wire)
    modifies bs
    ensures Spells(w, value)
    ensures bs.data == old(bs.data) + Emit(w) && bs.readOffset == old(bs.readOffset)
    decreases value, 2
  {
    ghost var start := bs.data;
    match value {
      case Undefined => bs.Write([0]); w := WUndefined;
      case Null => bs.Write([1]); w := WNull;
      case False => bs.Write([2]); w := WFalse;
      case True => bs.Write([3]); w := WTrue;
      case Integer(i) =>
        bs.Write([4]);
        WriteInteger(bs, i);
        w := WInteger(i % TWO_32);
        Regroup(start, [4], U29(i % TWO_32));
      case Double(raw) =>
        bs.Write([5]);
        bs.Write(raw);
        w := WDouble(raw);
        Regroup(start, [5], raw);
      case Str(s) =>
        bs.Write([6]);
        WriteAmfString(bs, s);
        w := WString(Inline(s));
        Regroup(start, [6], EmitText(Inline(s)));
      case Array(_, _) =>
        bs.Write([9]);
        ghost var body;
        w, body := WriteArray(bs, value);
        Regroup(start, [9], body);
    }
  }

  lemma Regroup(a: Bytes, b: Bytes, c: Bytes)
    ensures a + b + c == a + (b + c)
  {
  }

  method WriteArray(bs: BitStream, value: Value) returns (ghost w: Wire, ghost body: Bytes)
    requires value.Array?
    modifies bs
    ensures Spells(w, value) && Emit(w) == [9] + body
    ensures bs.data == old(bs.data) + body && bs.readOffset == old(bs.readOffset)
    decreases value, 1
  {
    ghost var start := bs.data;
    var denseSize := |value.dense| % TWO_32;
    WriteFlagNumber(bs, denseSize);
    ghost var pairs := WriteAssociative(bs, value);
    bs.Write([1]);
    ghost var ws := [];
    if denseSize > 0 {
      ws := WriteDense(bs, value);
    }
    w := WArray(pairs, ws);
    body := FlagNumber(denseSize) + EmitAssoc(pairs) + [1] + EmitDense(ws);
    ArrayParts(start, FlagNumber(denseSize), EmitAssoc(pairs), EmitDense(ws));
    assert |ws| % TWO_32 == denseSize;
  }

  lemma ArrayParts(start: Bytes, flag: Bytes, assoc: Bytes, dense: Bytes)
    ensures start + flag + assoc + [1] + dense == start + (flag + assoc + [1] + dense)
    ensures [9] + flag + assoc + [1] + dense == [9] + (flag + assoc + [1] + dense)
    ensures start + flag + assoc + [1] + [] == start + flag + assoc + [1]
  {
  }

  // The pairs spell the entries of the associative part whose keys have been visited.
  ghost predicate SpellsPart(pairs: seq<Pair>, assoc: map<Bytes, Value>, visited: set<Bytes>) {
    && visited <= assoc.Keys
    && SpellsKeys(pairs, visited)
    && forall i :: 0 <= i < |pairs| ==> Spells(pairs[i].value, assoc[pairs[i].key.s])
  }

  lemma SpellsOneMore(pairs: seq<Pair>, assoc: map<Bytes, Value>, visited: set<Bytes>, p: Pair)
    requires SpellsPart(pairs, assoc, visited)
    requires p.key.Inline? && p.key.s in assoc && p.key.s !in visited && Spells(p.value, assoc[p.key.s])
    ensures SpellsPart(pairs + [p], assoc, visited + {p.key.s})
  {
    var all := pairs + [p];
    forall k | k in visited + {p.key.s} ensures exists i :: 0 <= i < |all| && all[i].key.s == k {
      if k in visited {
        var i :| 0 <= i < |pairs| && pairs[i].key.s == k;
        assert all[i].key.s == k;
      } else {
        assert all[|pairs|].key.s == k;
      }
    }
  }

  lemma OneMoreEmitted(start: Bytes, pairs: seq<Pair>, p: Pair)
    ensures start + EmitAssoc(pairs) + EmitPair(p) == start + EmitAssoc(pairs + [p])
  {
    EmitAssocConcat(pairs, p);
    Regroup(start, EmitAssoc(pairs), EmitPair(p));
  }

  lemma OneLess(all: set<Bytes>, keys: set<Bytes>, k: Bytes)
    requires k in keys && keys <= all
    ensures all - (keys - {k}) == (all - keys) + {k} && |keys - {k}| < |keys|
  {
  }

  // Visits the associative part in an arbitrary order.
  method WriteAssociative(bs: BitStream, value: Value) returns (ghost pairs: seq<Pair>)
    requires value.Array?
    modifies bs
    ensures SpellsPart(pairs, value.assoc, value.assoc.Keys)
    ensures bs.data == old(bs.data) + EmitAssoc(pairs) && bs.readOffset == old(bs.readOffset)
    decreases value, 0, 2
  {
    pairs := [];
    var keys := value.assoc.Keys;
    ghost var start := bs.data;
    assert value.assoc.Keys - keys == {};
    while keys != {}
      invariant keys <= value.assoc.Keys && SpellsPart(pairs, value.assoc, value.assoc.Keys - keys)
      invariant bs.data == start + EmitAssoc(pairs) && bs.readOffset == old(bs.readOffset)
      decreases |keys|
    {
      var k :| k in keys;
      OneLess(value.assoc.Keys, keys, k);
      pairs := WriteNext(bs, value, k, start, pairs, value.assoc.Keys - keys);
      keys := keys - {k};
    }
    assert value.assoc.Keys - keys == value.assoc.Keys;
  }

  method WriteNext(bs: BitStream, value: Value, k: Bytes, ghost start: Bytes, ghost pairs: seq<Pair>,
                   ghost visited: set<Bytes>) returns (ghost more: seq<Pair>)
    requires value.Array? && k in value.assoc && k !in visited
    requires SpellsPart(pairs, value.assoc, visited) && bs.data == start + EmitAssoc(pairs)
    modifies bs
    ensures SpellsPart(more, value.assoc, visited + {k})
    ensures bs.data == start + EmitAssoc(more) && bs.readOffset == old(bs.readOffset)
    decreases value, 0, 1
  {
    ghost var p := WriteEntry(bs, value, k);
    more := pairs + [p];
    OneMoreEmitted(start, pairs, p);
    SpellsOneMore(pairs, value.assoc, visited, p);
  }

  method WriteEntry(bs: BitStream, value: Value, k: Bytes) returns (ghost p: Pair)
    requires value.Array? && k in value.assoc
    modifies bs
    ensures p.key == Inline(k) && Spells(p.value, value.assoc[k])
    ensures bs.data == old(bs.data) + EmitPair(p) && bs.readOffset == old(bs.readOffset)
    decreases value, 0, 0
  {
    WriteAmfString(bs, k);
    ghost var v := Write(bs, value.assoc[k]);
    p := Pair(Inline(k), v);
    Regroup(old(bs.data), EmitText(Inline(k)), Emit(v));
  }

  method WriteDense(bs: BitStream, value: Value) returns (ghost ws: seq<Wire>)
    requires value.Array?
    modifies bs
    ensures |ws| == |value.dense| && forall i :: 0 <= i < |ws| ==> Spells(ws[i], value.dense[i])
    ensures bs.data == old(bs.data) + EmitDense(ws) && bs.readOffset == old(bs.readOffset)
    decreases value, 0
  {
    ws := [];
    for i := 0 to |value.dense|
      invariant |ws| == i && forall j :: 0 <= j < i ==> Spells(ws[j], value.dense[j])
      invariant bs.data == old(bs.data) + EmitDense(ws) && bs.readOffset == old(bs.readOffset)
    {
      ghost var w := Write(bs, value.dense[i]);
      EmitDenseConcat(ws, w);
      Regroup(old(bs.data), EmitDense(ws), Emit(w));
      ws := ws + [w];
    }
  }

  lemma {:induction false} EmitAssocConcat(pairs: seq<Pair>, p: Pair)
    ensures EmitAssoc(pairs + [p]) == EmitAssoc(pairs) + EmitPair(p)
  {
    if pairs == [] {
      assert pairs + [p] == [p];
    } else {
      assert (pairs + [p])[1..] == pairs[1..] + [p];
      EmitAssocConcat(pairs[1..], p);
    }
  }

  lemma {:induction false} EmitDenseConcat(ws: seq<Wire>, w: Wire)
    ensures EmitDense(ws + [w]) == EmitDense(ws) + Emit(w)
  {
    if ws == [] {
      assert ws + [w] == [w];
    } else {
      assert (ws + [w])[1..] == ws[1..] + [w];
      EmitDenseConcat(ws[1..], w);
    }
  }

  // ----- reading

  datatype Outcome<+T> = Success(value: T) | Failure(error: Error) {
    predicate IsFailure() {
      Failure?
    }

    function PropagateFailure<U>(): Outcome<U>
      requires Failure?
    {
      Failure(error)
    }

    function Extract(): T
      requires Success?
    {
      value
    }
  }

  // The method returned what the function on bytes gives, and left the stream and the string table so.
  ghost predicate Agrees<T>(o: Outcome<T>, r: Result<T>, unread: Bytes, table: seq<Bytes>) {
    match r
    case Ok(v, rest, t) => o == Success(v) && unread == rest && table == t
    case Err(e) => o == Failure(e)
  }

  // How large the number can be after n bytes.
  predicate Bounded(n: int, acc: int) {
    0 <= acc < match n case 0 => 1 case 1 => 0x80 case 2 => 0x4000 case 3 => 0x20_0000 case _ => TWO_29
  }

  // Shifting a byte in and back by one place appends its low seven bits; the fourth byte is appended whole.
  function Shifted(n: int, acc: nat, byte: nat): (r: nat) {
    if n < 3 then (acc * 0x100 + byte * 2 % 0x100) / 2 else acc * 0x100 + byte
  }

  lemma ShiftIn(n: nat, acc: nat, byte: nat)
    requires n <= 3 && Bounded(n, acc) && byte < 0x100
    ensures acc * 0x100 + byte < TWO_32
    ensures Bounded(n + 1, Shifted(n, acc, byte))
    ensures n < 3 ==> Shifted(n, acc, byte) == acc * 0x80 + (if byte >= 0x80 then byte - 0x80 else byte)
  {
  }

  lemma ReadU29Step(b: Bytes, n: nat, acc: nat, table: seq<Bytes>)
    requires n <= 3 && b != [] && Bounded(n, acc)
    ensures Bounded(n + 1, Shifted(n, acc, b[0])) && acc * 0x100 + b[0] < TWO_32
    ensures ReadU29From(b, n, acc, table) == if n < 3 && b[0] >= 0x80
                                             then ReadU29From(b[1..], n + 1, Shifted(n, acc, b[0]), table)
                                             else Ok(Shifted(n, acc, b[0]), b[1..], table)
  {
    ShiftIn(n, acc, b[0]);
  }

  class AMFDeserialize {
    // Strings read so far, for later references.
    var accessedElements: seq<Bytes>

    constructor ()
      ensures accessedElements == []
    {
      accessedElements := [];
    }

    method ReadU29(inStream: BitStream) returns (r: Outcome<nat>)
      requires inStream.Valid()
      modifies inStream
      ensures inStream.Valid() && inStream.data == old(inStream.data)
      ensures Agrees(r, AmfWire.ReadU29(old(inStream.Unread()), accessedElements), inStream.Unread(), accessedElements)
    {
      var byteFlag, actualNumber, numberOfBytesRead := true, 0, 0;
      ghost var spec := AmfWire.ReadU29(inStream.Unread(), accessedElements);
      while byteFlag && numberOfBytesRead < 4
        invariant inStream.Valid() && inStream.data == old(inStream.data)
        invariant 0 <= numberOfBytesRead <= 4 && Bounded(numberOfBytesRead, actualNumber)
        invariant spec == if byteFlag && numberOfBytesRead < 4
                          then ReadU29From(inStream.Unread(), numberOfBytesRead, actualNumber, accessedElements)
                          else Ok(actualNumber, inStream.Unread(), accessedElements)
        decreases 4 - numberOfBytesRead
      {
        ghost var before := inStream.Unread();
        var ok, bytes := inStream.Read(1);
        if !ok {
          return Failure(EndOfStream);
        }
        var byte: int := bytes[0];
        ReadU29Step(before, numberOfBytesRead, actualNumber, accessedElements);
        ghost var next := Shifted(numberOfBytesRead, actualNumber, byte);
        if numberOfBytesRead < 3 {
          byteFlag := byte >= 0x80;
          byte := byte * 2 % 0x100;
        }
        actualNumber := actualNumber * 0x100 + byte;
        if numberOfBytesRead < 3 {
          actualNumber := actualNumber / 2;
        }
        assert actualNumber == next;
        numberOfBytesRead := numberOfBytesRead + 1;
      }
      r := Success(actualNumber);
    }

    method ReadString(inStream: BitStream) returns (r: Outcome<Bytes>)
      requires inStream.Valid()
      modifies inStream, this
      ensures inStream.Valid() && inStream.data == old(inStream.data)
      ensures Agrees(r, ReadText(old(inStream.Unread()), old(accessedElements)), inStream.Unread(), accessedElements)
    {
      var length :- ReadU29(inStream);
      var isReference := length % 2 == 1;
      length := length / 2;
      if isReference {
        var ok, value := inStream.Read(length);
        if !ok {
          return Failure(EndOfStream);
        }
        if value != [] {
          accessedElements := accessedElements + [value];
        }
        r := Success(value);
      } else {
        r := if length < |accessedElements| then Success(accessedElements[length]) else Failure(BadReference(length));
      }
    }

    method Read(inStream: BitStream) returns (r: Outcome<Value>)
      requires inStream.Valid()
      modifies inStream, this
      ensures inStream.Valid() && inStream.data == old(inStream.data)
      ensures Agrees(r, ReadValue(old(inStream.Unread()), old(accessedElements)), inStream.Unread(), accessedElements)
      decreases |inStream.data| - inStream.readOffset, 0
    {
      var ok, bytes := inStream.Read(1);
      if !ok {
        return Failure(EndOfStream);
      }
      var marker := bytes[0];
      if marker == 0 {
        r := Success(Undefined);
      } else if marker == 1 {
        r := Success(Null);
      } else if marker == 2 {
        r := Success(False);
      } else if marker == 3 {
        r := Success(True);
      } else if marker == 4 {
        r := ReadAmfInteger(inStream);
      } else if marker == 5 {
        r := ReadAmfDouble(inStream);
      } else if marker == 6 {
        var s :- ReadString(inStream);
        r := Success(Str(s));
      } else if marker == 9 {
        r := ReadAmfArray(inStream);
      } else if marker <= 0x11 {
        r := Failure(UnsupportedMarker(marker));
      } else {
        r := Failure(InvalidMarker(marker));
      }
    }

    method ReadAmfInteger(inStream: BitStream) returns (r: Outcome<Value>)
      requires inStream.Valid()
      modifies inStream
      ensures inStream.Valid() && inStream.data == old(inStream.data)
      ensures Agrees(r, IntegerBody(old(inStream.Unread()), accessedElements), inStream.Unread(), accessedElements)
    {
      U29Bounded(inStream.Unread(), accessedElements);
      var n :- ReadU29(inStream);
      r := Success(Integer(n));
    }

    method ReadAmfDouble(inStream: BitStream) returns (r: Outcome<Value>)
      requires inStream.Valid()
      modifies inStream
      ensures inStream.Valid() && inStream.data == old(inStream.data)
      ensures Agrees(r, DoubleBody(old(inStream.Unread()), accessedElements), inStream.Unread(), accessedElements)
    {
      var ok, raw := inStream.Read(8);
      r := if ok then Success(Double(raw)) else Failure(EndOfStream);
    }

    method ReadAmfArray(inStream: BitStream) returns (r: Outcome<Value>)
      requires inStream.Valid()
      modifies inStream, this
      ensures inStream.Valid() && inStream.data == old(inStream.data)
      ensures Agrees(r, ArrayOf(old(inStream.Unread()), old(accessedElements)), inStream.Unread(), accessedElements)
      decreases |inStream.data| - inStream.readOffset, 2
    {
      var flag :- ReadU29(inStream);
      var sizeOfDenseArray := flag / 2;
      var assoc :- ReadAssociative(inStream);
      var dense :- ReadDenseArray(inStream, sizeOfDenseArray);
      r := Success(Array(assoc, dense));
    }

    method ReadAssociative(inStream: BitStream) returns (r: Outcome<map<Bytes, Value>>)
      requires inStream.Valid()
      modifies inStream, this
      ensures inStream.Valid() && inStream.data == old(inStream.data)
      ensures Agrees(r, ReadAssoc(old(inStream.Unread()), old(accessedElements), map[]),
                     inStream.Unread(), accessedElements)
      decreases |inStream.data| - inStream.readOffset, 1
    {
      var assoc: map<Bytes, Value> := map[];
      ghost var whole := ReadAssoc(inStream.Unread(), accessedElements, map[]);
      while true
        invariant inStream.Valid() && inStream.data == old(inStream.data)
        invariant inStream.readOffset >= old(inStream.readOffset)
        invariant ReadAssoc(inStream.Unread(), accessedElements, assoc) == whole
        decreases |inStream.data| - inStream.readOffset
      {
        var key :- ReadString(inStream);
        if key == [] {
          return Success(assoc);
        }
        var v :- Read(inStream);
        assoc := assoc[key := v];
      }
    }

    method ReadDenseArray(inStream: BitStream, size: nat) returns (r: Outcome<seq<Value>>)
      requires inStream.Valid()
      modifies inStream, this
      ensures inStream.Valid() && inStream.data == old(inStream.data)
      ensures Agrees(r, ReadDense(old(inStream.Unread()), old(accessedElements), size, []),
                     inStream.Unread(), accessedElements)
      decreases |inStream.data| - inStream.readOffset, 1
    {
      var dense: seq<Value> := [];
      ghost var whole := ReadDense(inStream.Unread(), accessedElements, size, []);
      for i := 0 to size
        invariant inStream.Valid() && inStream.data == old(inStream.data)
        invariant inStream.readOffset >= old(inStream.readOffset)
        invariant ReadDense(inStream.Unread(), accessedElements, size - i, dense) == whole
      {
        var v :- Read(inStream);
        dense := dense + [v];
      }
      r := Success(dense);
    }
  }

  // A fresh writer and a fresh reader, end to end: the value comes back exactly when it is canonical.
  method Transmit(value: Value, more: Bytes) returns (r: Outcome<Value>, unread: Bytes)
    ensures r == Success(value) && unread == more <==> Canonical(value)
  {
    var bs := new BitStream([]);
    ghost var w := Write(bs, value);
    assert bs.data == Emit(w);
    bs.Write(more);
    RoundTrip(w, value, more);
    var reader := new AMFDeserialize();
    r := reader.Read(bs);
    unread := bs.data[bs.readOffset..];
  }
}
