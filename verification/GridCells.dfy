/**
  Where the physics grid keeps an entity (dPhysics/dpGrid.cpp): cell arithmetic, and cells as plain values.
 */
module GridCells {
  import opened Basics

  // ----- from a coordinate to a cell

  // Halves go away from zero.
  function Round(x: real): int {
    if x >= 0.0 then (x + 0.5).Floor else -((-x + 0.5).Floor)
  }

  // Integer division as C++ does it.
  function Truncated(a: int, size: int): int
    requires size > 0
  {
    if a >= 0 then a / size else -((-a) / size)
  }

  function Clamp(v: int, low: int, high: int): (r: int)
    requires low <= high
    ensures low <= r <= high && (low <= v <= high ==> r == v)
  {
    if v < low then low else if high < v then high else v
  }

  function CellIndex(x: real, numCells: int, cellSize: int): (i: nat)
    requires numCells > 0 && cellSize > 0
    ensures i < numCells
  {
    Clamp(Truncated(Round(x), cellSize) + numCells / 2, 0, numCells - 1)
  }

  // To the nearest whole number, and from halfway to the one further from zero.
  lemma RoundMeans(x: real)
    ensures -0.5 <= x - Round(x) as real <= 0.5
    ensures x - Round(x) as real == 0.5 ==> x < 0.0
    ensures x - Round(x) as real == -0.5 ==> x > 0.0
  {
  }

  // The cells are counted from the middle of the grid in both directions, and what is beyond the rim is in the last
  // one.  The middle cell takes the first cell size on either side of the origin.
  lemma CellMeans(n: nat, numCells: int, cellSize: int)
    requires numCells > 0 && cellSize > 0
    ensures CellIndex(n as real, numCells, cellSize)
         == if numCells / 2 + n / cellSize < numCells then numCells / 2 + n / cellSize else numCells - 1
    ensures CellIndex(-(n as real), numCells, cellSize)
         == if n / cellSize <= numCells / 2 then numCells / 2 - n / cellSize else 0
  {
    assert Round(n as real) == n && Round(-(n as real)) == 0 - n;
    assert n / cellSize >= 0;
  }

  lemma SameCellForSameRound(x: real, numCells: int, cellSize: int)
    requires numCells > 0 && cellSize > 0
    ensures CellIndex(x, numCells, cellSize) == CellIndex(Round(x) as real, numCells, cellSize)
  {
    assert Round(Round(x) as real) == Round(x);
  }

  // ----- one cell

  function Find<T(==)>(s: seq<T>, e: T): (k: nat)
    ensures k <= |s| && (forall j :: 0 <= j < k ==> s[j] != e) && (k < |s| ==> s[k] == e)
  {
    if s == [] || s[0] == e then 0 else 1 + Find(s[1..], e)
  }

  // Overwrites the element with the last one and drops the last one.
  function SwapAndPop<T(==)>(s: seq<T>, e: T): seq<T> {
    var k := Find(s, e);
    if k < |s| then s[k := s[|s| - 1]][..|s| - 1] else s
  }

  lemma SwapAndPopRemoves<T>(s: seq<T>, e: T)
    requires Distinct(s)
    ensures Distinct(SwapAndPop(s, e))
    ensures forall x :: x in SwapAndPop(s, e) <==> x in s && x != e
  {
    var k, t := Find(s, e), SwapAndPop(s, e);
    if k < |s| {
      forall x | x in s && x != e ensures x in t {
        var j :| 0 <= j < |s| && s[j] == x;
        assert t[if j == |s| - 1 then k else j] == x;
      }
      forall x | x in t ensures x in s && x != e {
        var j :| 0 <= j < |t| && t[j] == x;
        assert x == s[if j == k then |s| - 1 else j];
      }
    } else {
      assert e !in s;
    }
  }

  lemma AppendKeepsDistinct<T>(s: seq<T>, e: T)
    requires Distinct(s) && e !in s
    ensures Distinct(s + [e])
  {
  }

  // ----- the cells

  type Cells<T> = seq<seq<seq<T>>>

  predicate Square<T>(cells: Cells<T>, n: nat) {
    |cells| == n && forall x :: 0 <= x < n ==> |cells[x]| == n
  }

  function SetCell<T>(cells: Cells<T>, x: nat, z: nat, cell: seq<T>): (r: Cells<T>)
    requires x < |cells| && z < |cells[x]|
    ensures |r| == |cells|
    ensures forall i :: 0 <= i < |r| ==> |r[i]| == |cells[i]|
    ensures forall i, j :: 0 <= i < |r| && 0 <= j < |r[i]| ==>
      r[i][j] == if i == x && j == z then cell else cells[i][j]
  {
    cells[x := cells[x][z := cell]]
  }

  function Push<T>(cells: Cells<T>, x: nat, z: nat, e: T): Cells<T>
    requires x < |cells| && z < |cells[x]|
  {
    SetCell(cells, x, z, cells[x][z] + [e])
  }

  function Pull<T(==)>(cells: Cells<T>, x: nat, z: nat, e: T): Cells<T>
    requires x < |cells| && z < |cells[x]|
  {
    SetCell(cells, x, z, SwapAndPop(cells[x][z], e))
  }

  datatype Spot = Spot(x: nat, z: nat)

  // A cell holds exactly what belongs there, once.
  predicate Holds<T(==)>(cell: seq<T>, spots: map<T, Spot>, s: Spot) {
    && Distinct(cell)
    && (forall e :: e in cell ==> e in spots && spots[e] == s)
    && (forall e :: e in spots && spots[e] == s ==> e in cell)
  }

  // Everything tracked is in the cell of its spot, once, and in no other cell; nothing else is anywhere.
  predicate Placed<T(==)>(cells: Cells<T>, n: nat, spots: map<T, Spot>) {
    && Square(cells, n)
    && (forall x, z :: 0 <= x < n && 0 <= z < n ==> Holds(cells[x][z], spots, Spot(x, z)))
    && (forall e :: e in spots ==> spots[e].x < n && spots[e].z < n)
  }

  lemma PushHolds<T>(cell: seq<T>, spots: map<T, Spot>, s: Spot, e: T, to: Spot)
    requires Holds(cell, spots, s) && e !in spots
    ensures Holds(if s == to then cell + [e] else cell, spots[e := to], s)
  {
    if s == to {
      assert e !in cell;
      AppendKeepsDistinct(cell, e);
    }
  }

  lemma PushPlaces<T>(cells: Cells<T>, n: nat, spots: map<T, Spot>, e: T, to: Spot)
    requires Placed(cells, n, spots) && e !in spots && to.x < n && to.z < n
    ensures Placed(Push(cells, to.x, to.z, e), n, spots[e := to])
  {
    var after := Push(cells, to.x, to.z, e);
    forall x, z | 0 <= x < n && 0 <= z < n ensures Holds(after[x][z], spots[e := to], Spot(x, z)) {
      PushHolds(cells[x][z], spots, Spot(x, z), e, to);
    }
  }

  lemma PullHolds<T>(cell: seq<T>, spots: map<T, Spot>, s: Spot, e: T)
    requires Holds(cell, spots, s) && e in spots
    ensures Holds(if s == spots[e] then SwapAndPop(cell, e) else cell, spots - {e}, s)
  {
    SwapAndPopRemoves(cell, e);
  }

  lemma PullPlaces<T>(cells: Cells<T>, n: nat, spots: map<T, Spot>, e: T)
    requires Placed(cells, n, spots) && e in spots
    ensures Placed(Pull(cells, spots[e].x, spots[e].z, e), n, spots - {e})
  {
    var after := Pull(cells, spots[e].x, spots[e].z, e);
    forall x, z | 0 <= x < n && 0 <= z < n ensures Holds(after[x][z], spots - {e}, Spot(x, z)) {
      PullHolds(cells[x][z], spots, Spot(x, z), e);
    }
  }

  lemma PullAbsent<T>(cells: Cells<T>, n: nat, spots: map<T, Spot>, e: T, from: Spot)
    requires Placed(cells, n, spots) && e !in spots && from.x < n && from.z < n
    ensures Pull(cells, from.x, from.z, e) == cells
  {
    assert Holds(cells[from.x][from.z], spots, from);
    var row := cells[from.x];
    assert SwapAndPop(row[from.z], e) == row[from.z];
    assert row[from.z := row[from.z]] == row && cells[from.x := row] == cells;
  }

  lemma MovePlaces<T>(cells: Cells<T>, n: nat, spots: map<T, Spot>, e: T, to: Spot)
    requires Placed(cells, n, spots) && e in spots && to.x < n && to.z < n
    ensures Placed(Push(Pull(cells, spots[e].x, spots[e].z, e), to.x, to.z, e), n, spots[e := to])
  {
    PullPlaces(cells, n, spots, e);
    PushPlaces(Pull(cells, spots[e].x, spots[e].z, e), n, spots - {e}, e, to);
    assert (spots - {e})[e := to] == spots[e := to];
  }

  // ----- neighbours

  lemma RoundIsMonotone(x: real, y: real)
    requires x <= y
    ensures Round(x) <= Round(y)
  {
  }

  lemma TimesIsMonotone(size: int, p: int, q: int)
    requires size > 0 && p <= q
    ensures size * p <= size * q
  {
  }

  lemma QuotientIs(a: int, size: int, q: int)
    requires size > 0 && size * q <= a < size * q + size
    ensures a / size == q
  {
    if a / size < q {
      TimesIsMonotone(size, a / size + 1, q);
    } else if a / size > q {
      TimesIsMonotone(size, q + 1, a / size);
    }
  }

  lemma DivideIsMonotone(a: int, b: int, size: int)
    requires size > 0 && 0 <= a <= b
    ensures 0 <= a / size <= b / size
  {
    if a / size > b / size {
      TimesIsMonotone(size, b / size + 1, a / size);
    }
  }

  lemma TruncatedIsMonotone(a: int, b: int, size: int)
    requires size > 0 && a <= b
    ensures Truncated(a, size) <= Truncated(b, size)
  {
    if 0 <= a {
      DivideIsMonotone(a, b, size);
    } else if b < 0 {
      DivideIsMonotone(-b, -a, size);
    } else {
      DivideIsMonotone(b, b, size);
      DivideIsMonotone(-a, -a, size);
    }
  }

  lemma NextQuotient(a: int, size: int)
    requires size > 0
    ensures (a + size) / size == a / size + 1
  {
    QuotientIs(a + size, size, a / size + 1);
  }

  lemma OneSizeUp(a: int, size: int)
    requires size > 0
    ensures Truncated(a + size, size) <= Truncated(a, size) + 1
  {
    if a >= 0 {
      NextQuotient(a, size);
    } else if a + size >= 0 {
      QuotientIs(a + size, size, 0);
      QuotientIs(-a, size, if a == -size then 1 else 0);
    } else {
      NextQuotient(-a - size, size);
    }
  }

  // Coordinates that round to within one cell size of each other fall in the same cell or in neighbours, also
  // around the origin, where the cell is twice as wide, and beyond the rim, where cells are shared.
  lemma NearbyIsNeighbouring(x: real, y: real, numCells: int, cellSize: int)
    requires numCells > 0 && cellSize > 0 && x <= y && Round(y) - Round(x) <= cellSize
    ensures CellIndex(x, numCells, cellSize) <= CellIndex(y, numCells, cellSize)
         <= CellIndex(x, numCells, cellSize) + 1
  {
    RoundIsMonotone(x, y);
    TruncatedIsMonotone(Round(x), Round(y), cellSize);
    TruncatedIsMonotone(Round(y), Round(x) + cellSize, cellSize);
    OneSizeUp(Round(x), cellSize);
  }
}
