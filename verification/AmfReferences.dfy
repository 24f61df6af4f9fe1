/**
  Repeated strings as references (dCommon/AMFDeserialize.cpp, ReadString).

  The writer spells every string out, but a client may refer to a string that it has sent before.  `Resolve`
  spells such references out again; reading is proved not to mind the difference.
 */
module AmfReferences {
  import opened AmfWire

  function ResolveText(t: WireText, table: seq<Bytes>): Meaning<WireText> {
    match t
    case Inline(s) => Means(t, if s == [] then table else table + [s])
    case Reference(i) => if i < |table| && i < TWO_28 then Means(Inline(table[i]), table) else Nonsense
  }

  // The tree with every reference spelled out, and the table of strings that its reader ends up with.
  function Resolve(w: Wire, table: seq<Bytes>): Meaning<Wire>
    decreases w, 1
  {
    match w
    case WString(text) =>
      (match ResolveText(text, table)
       case Nonsense => Nonsense
       case Means(t, table') => Means(WString(t), table'))
    case WArray(pairs, ws) =>
      (match ResolvePairs(pairs, table)
       case Nonsense => Nonsense
       case Means(pairs', t) =>
         match ResolveDense(ws, t)
         case Nonsense => Nonsense
         case Means(ws', t') => Means(WArray(pairs', ws'), t'))
    case _ => Means(w, table)
  }

  function ResolvePairs(pairs: seq<Pair>, table: seq<Bytes>): (m: Meaning<seq<Pair>>)
    ensures m.Means? ==> |m.value| == |pairs|
    decreases pairs, 0
  {
    if pairs == [] then Means([], table) else
    match ResolvePair(pairs[0], table)
    case Nonsense => Nonsense
    case Means(p, t) =>
      match ResolvePairs(pairs[1..], t)
      case Nonsense => Nonsense
      case Means(rest, t') => Means([p] + rest, t')
  }

  function ResolvePair(p: Pair, table: seq<Bytes>): Meaning<Pair>
    decreases p, 0
  {
    match ResolveText(p.key, table)
    case Nonsense => Nonsense
    case Means(key, t) =>
      match Resolve(p.value, t)
      case Nonsense => Nonsense
      case Means(v, t') => Means(Pair(key, v), t')
  }

  function ResolveDense(ws: seq<Wire>, table: seq<Bytes>): (m: Meaning<seq<Wire>>)
    ensures m.Means? ==> |m.value| == |ws|
    decreases ws, 0
  {
    if ws == [] then Means([], table) else
    match Resolve(ws[0], table)
    case Nonsense => Nonsense
    case Means(w, t) =>
      match ResolveDense(ws[1..], t)
      case Nonsense => Nonsense
      case Means(rest, t') => Means([w] + rest, t')
  }

  // ----- both forms mean the same, although their readers' tables differ

  lemma ResolvedText(t: WireText, table: seq<Bytes>, other: seq<Bytes>)
    requires ResolveText(t, table).Means? && TextMeaning(ResolveText(t, table).value, other).Means?
    ensures TextMeaning(t, table)
         == Means(TextMeaning(ResolveText(t, table).value, other).value, ResolveText(t, table).table)
  {
  }

  lemma {:induction false} ResolvedMeans(w: Wire, table: seq<Bytes>, other: seq<Bytes>)
    requires Resolve(w, table).Means? && WireMeaning(Resolve(w, table).value, other).Means?
    ensures WireMeaning(w, table) == Means(WireMeaning(Resolve(w, table).value, other).value, Resolve(w, table).table)
    decreases w, 1
  {
    match w
    case WString(text) => ResolvedText(text, table, other);
    case WArray(pairs, ws) =>
      var p := ResolvePairs(pairs, table);
      ResolvedPairsMean(pairs, table, other, map[]);
      ResolvedDenseMean(ws, p.table, AssocMeaning(p.value, other, map[]).table, []);
    case _ =>
  }

  lemma {:induction false} ResolvedPairsMean(pairs: seq<Pair>, table: seq<Bytes>, other: seq<Bytes>,
                                             assoc: map<Bytes, Value>)
    requires ResolvePairs(pairs, table).Means?
    requires AssocMeaning(ResolvePairs(pairs, table).value, other, assoc).Means?
    ensures AssocMeaning(pairs, table, assoc)
         == Means(AssocMeaning(ResolvePairs(pairs, table).value, other, assoc).value, ResolvePairs(pairs, table).table)
    decreases pairs, 0
  {
    if pairs != [] {
      var first := ResolvePair(pairs[0], table);
      var rest := ResolvePairs(pairs[1..], first.table);
      assert ([first.value] + rest.value)[1..] == rest.value;
      var m := PairMeaning(first.value, other);
      ResolvedPairMeans(pairs[0], table, other);
      ResolvedPairsMean(pairs[1..], first.table, m.table, assoc[m.value.0 := m.value.1]);
    }
  }

  lemma {:induction false} ResolvedPairMeans(p: Pair, table: seq<Bytes>, other: seq<Bytes>)
    requires ResolvePair(p, table).Means? && PairMeaning(ResolvePair(p, table).value, other).Means?
    ensures PairMeaning(p, table)
         == Means(PairMeaning(ResolvePair(p, table).value, other).value, ResolvePair(p, table).table)
    decreases p, 0
  {
    var key := ResolveText(p.key, table);
    ResolvedText(p.key, table, other);
    ResolvedMeans(p.value, key.table, TextMeaning(key.value, other).table);
  }

  lemma {:induction false} ResolvedDenseMean(ws: seq<Wire>, table: seq<Bytes>, other: seq<Bytes>, dense: seq<Value>)
    requires ResolveDense(ws, table).Means?
    requires DenseMeaning(ResolveDense(ws, table).value, other, dense).Means?
    ensures DenseMeaning(ws, table, dense)
         == Means(DenseMeaning(ResolveDense(ws, table).value, other, dense).value, ResolveDense(ws, table).table)
    decreases ws, 0
  {
    if ws != [] {
      var first := Resolve(ws[0], table);
      var rest := ResolveDense(ws[1..], first.table);
      assert ([first.value] + rest.value)[1..] == rest.value;
      var m := WireMeaning(first.value, other);
      ResolvedMeans(ws[0], table, other);
      ResolvedDenseMean(ws[1..], first.table, m.table, dense + [m.value]);
    }
  }

  // For every legal choice of references and every order of the entries, reading gives back the value and exactly
  // the bytes behind it, if and only if the value is canonical.
  lemma ReferencesRoundTrip(w: Wire, v: Value, rest: Bytes)
    requires Resolve(w, []).Means? && Spells(Resolve(w, []).value, v)
    ensures (var r := ReadValue(Emit(w) + rest, []); r.Ok? && r.value == v && r.rest == rest) <==> Canonical(v)
  {
    ReadIsCanonical(Emit(w) + rest, []);
    if Canonical(v) {
      SpellingMeans(Resolve(w, []).value, v, []);
      ResolvedMeans(w, [], []);
      ReadOfEmit(w, rest, []);
    }
  }
}
