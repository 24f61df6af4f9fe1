/**
  What several components need: machine integers and lists without repeats.
 */
module Basics {

  type Byte = x: int | 0 <= x < 0x100
  type Int32 = x: int | -0x8000_0000 <= x < 0x8000_0000
  type Int64 = x: int | -0x8000_0000_0000_0000 <= x < 0x8000_0000_0000_0000

  const TWO_16: nat := 0x1_0000
  const TWO_32: nat := 0x1_0000_0000
  const TWO_64: nat := 0x1_0000_0000_0000_0000

  // What comes before the first end, as C cuts a string at its first NUL.
  function UpTo<T(==)>(s: seq<T>, end: T): (t: seq<T>)
    ensures t <= s && end !in t && (|t| < |s| ==> s[|t|] == end)
  {
    if s == [] || s[0] == end then [] else [s[0]] + UpTo(s[1..], end)
  }

  predicate Distinct<T(==)>(s: seq<T>) {
    forall i, j :: 0 <= i < j < |s| ==> s[i] != s[j]
  }
}
