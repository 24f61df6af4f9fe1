/**
  Choosing a port for a new world server (dMasterServer/InstanceManager.cpp, GetFreePort).

  Every world uses three consecutive ports, so ports are meant to lie on the lattice base, base + 3, ...
 */
module Ports {

  function PortAt(base: nat, i: nat): nat {
    base + 3 * i
  }

  // ----- sorting, as std::sort does it

  predicate IsSorted(s: seq<nat>) {
    |s| <= 1 || (s[0] <= s[1] && IsSorted(s[1..]))
  }

  lemma {:induction false} SortedAt(s: seq<nat>, i: nat, j: nat)
    requires IsSorted(s) && i <= j < |s|
    ensures s[i] <= s[j]
  {
    if i > 0 {
      SortedAt(s[1..], i - 1, j - 1);
    } else if j > 0 {
      SortedAt(s[1..], 0, j - 1);
    }
  }

  function Insert(x: nat, s: seq<nat>): (t: seq<nat>)
    requires IsSorted(s)
    ensures IsSorted(t) && multiset(t) == multiset(s) + multiset{x}
    ensures t != [] && (t[0] == x || (s != [] && t[0] == s[0]))
  {
    if s == [] || x <= s[0] then
      assert s != [] ==> ([x] + s)[1..] == s;
      [x] + s
    else
      assert s == [s[0]] + s[1..];
      var t := Insert(x, s[1..]);
      assert ([s[0]] + t)[1..] == t;
      [s[0]] + t
  }

  function Sort(s: seq<nat>): (t: seq<nat>)
    ensures IsSorted(t) && multiset(t) == multiset(s)
  {
    if s == [] then []
    else
      assert s == [s[0]] + s[1..];
      Insert(s[0], Sort(s[1..]))
  }

  // ----- the search

  // Walks the sorted ports while they are exactly port, port + 3, ...
  function FirstGap(port: nat, sorted: seq<nat>): (p: nat)
    decreases |sorted|
  {
    if sorted != [] && sorted[0] == port then FirstGap(port + 3, sorted[1..]) else port
  }

  function FreePort(base: nat, used: seq<nat>): nat {
    FirstGap(base, Sort(used))
  }

  method FindFreePort(base: nat, used: seq<nat>) returns (port: nat)
    ensures port == FreePort(base, used)
  {
    var usedPorts := Sort(used);
    port := base;
    var portIdx := 0;
    while portIdx < |usedPorts| && port == usedPorts[portIdx]
      invariant portIdx <= |usedPorts|
      invariant FirstGap(port, usedPorts[portIdx..]) == FreePort(base, used)
    {
      port := port + 3;
      portIdx := portIdx + 1;
    }
  }

  // ----- what is found

  // base + 3j is the first lattice port that is not in use.
  predicate IsLeastFree(base: nat, used: seq<nat>, j: nat) {
    PortAt(base, j) !in used && RunIsIn(base, used, j)
  }

  function CountBelow(used: seq<nat>, bound: nat): (n: nat)
    ensures n <= |used|
  {
    if used == [] then 0 else (if used[0] < bound then 1 else 0) + CountBelow(used[1..], bound)
  }

  // The j smallest ports in use are base, base + 3, ..., base + 3(j - 1).
  predicate StartsWithRun(base: nat, sorted: seq<nat>, j: nat) {
    j <= |sorted| && forall i :: 0 <= i < j ==> sorted[i] == PortAt(base, i)
  }

  lemma {:induction false} GapOfRun(base: nat, sorted: seq<nat>) returns (i: nat)
    ensures StartsWithRun(base, sorted, i) && FirstGap(base, sorted) == PortAt(base, i)
    ensures i < |sorted| ==> sorted[i] != PortAt(base, i)
    decreases |sorted|
  {
    i := 0;
    if sorted != [] && sorted[0] == base {
      var k := GapOfRun(base + 3, sorted[1..]);
      i := k + 1;
      forall n | 0 <= n < i ensures sorted[n] == PortAt(base, n) {
        if n > 0 {
          assert sorted[n] == sorted[1..][n - 1];
        }
      }
    }
  }

  lemma SortKeepsMembers(used: seq<nat>, x: nat)
    ensures x in Sort(used) <==> x in used
  {
    assert x in Sort(used) <==> x in multiset(Sort(used));
    assert x in used <==> x in multiset(used);
  }

  lemma SortKeepsRun(base: nat, used: seq<nat>, j: nat)
    requires RunIsIn(base, used, j)
    ensures RunIsIn(base, Sort(used), j)
  {
    forall i | 0 <= i < j ensures PortAt(base, i) in Sort(used) {
      SortKeepsMembers(used, PortAt(base, i));
    }
  }

  // The port that is found is free exactly when the sorted ports begin with the whole occupied run.
  lemma FreeIffRun(base: nat, used: seq<nat>, j: nat)
    requires IsLeastFree(base, used, j)
    ensures FreePort(base, used) !in used <==> StartsWithRun(base, Sort(used), j)
    ensures FreePort(base, used) !in used ==> FreePort(base, used) == PortAt(base, j)
  {
    var s := Sort(used);
    var i := GapOfRun(base, s);
    SortKeepsMembers(used, PortAt(base, j));
    if i > j {
      MemberOfRun(base, s, i, j);
      assert false;
    }
  }

  lemma MemberOfRun(base: nat, s: seq<nat>, i: nat, j: nat)
    requires StartsWithRun(base, s, i) && j < i
    ensures PortAt(base, j) in s
  {
    assert s[j] == PortAt(base, j);
  }

  lemma {:induction false} CountBelowMultiset(a: seq<nat>, b: seq<nat>, bound: nat)
    requires multiset(a) == multiset(b)
    ensures CountBelow(a, bound) == CountBelow(b, bound)
  {
    if a == [] {
      assert |multiset(b)| == |b|;
    } else {
      assert a[0] in multiset(a);
      var k :| 0 <= k < |b| && b[k] == a[0];
      var rest := Without(b, k);
      assert a == [a[0]] + a[1..];
      CountBelowMultiset(a[1..], rest, bound);
      CountWithout(b, k, bound);
    }
  }

  function Without(b: seq<nat>, k: nat): (rest: seq<nat>)
    requires k < |b|
    ensures multiset(rest) == multiset(b) - multiset{b[k]}
  {
    assert b == b[..k] + [b[k]] + b[k + 1..];
    b[..k] + b[k + 1..]
  }

  lemma CountWithout(b: seq<nat>, k: nat, bound: nat)
    requires k < |b|
    ensures CountBelow(b, bound) == CountBelow(Without(b, k), bound) + CountBelow([b[k]], bound)
  {
    CountBelowConcat(b[..k], b[k..], bound);
    CountBelowConcat(b[..k], b[k + 1..], bound);
    CountBelowConcat([b[k]], b[k + 1..], bound);
    assert b == b[..k] + b[k..] && b[k..] == [b[k]] + b[k + 1..];
  }

  lemma {:induction false} CountBelowConcat(a: seq<nat>, b: seq<nat>, bound: nat)
    ensures CountBelow(a + b, bound) == CountBelow(a, bound) + CountBelow(b, bound)
  {
    if a == [] {
      assert a + b == b;
    } else {
      assert (a + b)[1..] == a[1..] + b;
      CountBelowConcat(a[1..], b, bound);
    }
  }

  // In a sorted sequence the elements below a bound are the first ones.
  lemma {:induction false} CountBelowSorted(s: seq<nat>, bound: nat, i: nat)
    requires IsSorted(s) && i < |s|
    ensures s[i] < bound <==> i < CountBelow(s, bound)
  {
    if s[0] >= bound {
      SortedAt(s, 0, i);
      NoneBelowSorted(s, bound);
    } else if i > 0 {
      CountBelowSorted(s[1..], bound, i - 1);
    }
  }

  lemma {:induction false} NoneBelowSorted(s: seq<nat>, bound: nat)
    requires IsSorted(s) && s != [] && s[0] >= bound
    ensures CountBelow(s, bound) == 0
  {
    if |s| > 1 {
      NoneBelowSorted(s[1..], bound);
    }
  }

  lemma CountGrows(s: seq<nat>, a: nat, b: nat)
    requires IsSorted(s) && a < b && a in s
    ensures CountBelow(s, a) < CountBelow(s, b)
  {
    var k :| 0 <= k < |s| && s[k] == a;
    CountBelowSorted(s, a, k);
    CountBelowSorted(s, b, k);
  }

  lemma MemberAfterCount(s: seq<nat>, x: nat)
    requires IsSorted(s) && x in s
    ensures CountBelow(s, x) < |s| && s[CountBelow(s, x)] == x
  {
    var k :| 0 <= k < |s| && s[k] == x;
    var n := CountBelow(s, x);
    CountBelowSorted(s, x, k);
    CountBelowSorted(s, x, n);
    SortedAt(s, n, k);
  }

  predicate RunIsIn(base: nat, s: seq<nat>, j: nat) {
    forall i :: 0 <= i < j ==> PortAt(base, i) in s
  }

  // If the members of a run are all present, and as many elements as the run is long lie below its last
  // member, then the sorted sequence starts with the run.
  lemma {:induction false} RunFillsPrefix(base: nat, s: seq<nat>, j: nat)
    requires IsSorted(s) && j > 0 && RunIsIn(base, s, j)
    ensures CountBelow(s, PortAt(base, j - 1)) >= j - 1
    ensures CountBelow(s, PortAt(base, j - 1)) == j - 1 ==> StartsWithRun(base, s, j)
  {
    MemberAfterCount(s, PortAt(base, j - 1));
    if j > 1 {
      RunFillsPrefix(base, s, j - 1);
      CountGrows(s, PortAt(base, j - 2), PortAt(base, j - 1));
    }
  }

  lemma RunCountsBelow(base: nat, s: seq<nat>, j: nat)
    requires IsSorted(s) && j > 0 && StartsWithRun(base, s, j)
    ensures CountBelow(s, PortAt(base, j - 1)) == j - 1
  {
    CountBelowSorted(s, PortAt(base, j - 1), j - 1);
    if j > 1 {
      CountBelowSorted(s, PortAt(base, j - 1), j - 2);
    }
  }

  // The port that is found is unused exactly when, below the last port of the occupied run
  // base, base + 3, ..., base + 3(j - 1), there are no used ports other than the run itself; it is then the
  // least unused port of the lattice.
  lemma FreePortIsFree(base: nat, used: seq<nat>, j: nat)
    requires IsLeastFree(base, used, j)
    ensures FreePort(base, used) !in used <==> j == 0 || CountBelow(used, PortAt(base, j - 1)) == j - 1
    ensures FreePort(base, used) !in used ==> FreePort(base, used) == PortAt(base, j)
  {
    FreeIffRun(base, used, j);
    if j > 0 {
      var s := Sort(used);
      CountBelowMultiset(used, s, PortAt(base, j - 1));
      SortKeepsRun(base, used, j);
      RunFillsPrefix(base, s, j);
      if StartsWithRun(base, s, j) {
        RunCountsBelow(base, s, j);
      }
    }
  }

  // There is always a least free port, and at most |used| lattice ports are passed over.
  lemma LeastFreeExists(base: nat, used: seq<nat>) returns (j: nat)
    ensures IsLeastFree(base, used, j) && j <= |used|
  {
    j := 0;
    ghost var rest := used;
    while PortAt(base, j) in used
      invariant j >= 0 && RunIsIn(base, used, j)
      invariant |rest| + j == |used|
      invariant forall x :: x in used && x >= PortAt(base, j) ==> x in rest
      decreases |rest|
    {
      var p := PortAt(base, j);
      var k :| 0 <= k < |rest| && rest[k] == p;
      var next := rest[..k] + rest[k + 1..];
      forall x | x in used && x >= p + 3 ensures x in next {
        var n :| 0 <= n < |rest| && rest[n] == x;
        assert x == if n < k then next[n] else next[n - 1];
      }
      rest := next;
      j := j + 1;
    }
  }

  // ----- the lattice

  predicate OnLattice(base: nat, p: nat) {
    p >= base && (p - base) % 3 == 0
  }

  predicate PortsOk(base: nat, used: seq<nat>) {
    && (forall i :: 0 <= i < |used| ==> OnLattice(base, used[i]))
    && (forall i, j :: 0 <= i < j < |used| ==> used[i] != used[j])
  }

  // The blocks of three ports that two servers occupy.
  predicate BlocksDisjoint(p: nat, q: nat) {
    p + 3 <= q || q + 3 <= p
  }

  // With ports anywhere, the new world's block overlaps no other exactly when, besides, no used port lies within two
  // of the least unused lattice port.
  lemma NewBlockIsDisjoint(base: nat, used: seq<nat>, j: nat)
    requires IsLeastFree(base, used, j)
    ensures (forall p :: p in used ==> BlocksDisjoint(p, FreePort(base, used))) <==>
      && (j == 0 || CountBelow(used, PortAt(base, j - 1)) == j - 1)
      && forall p :: p in used ==> !(PortAt(base, j) - 3 < p < PortAt(base, j) + 3)
  {
    FreePortIsFree(base, used, j);
    if FreePort(base, used) in used {
      assert !BlocksDisjoint(FreePort(base, used), FreePort(base, used));
    }
  }

  lemma LatticeBlocksAreDisjoint(base: nat, used: seq<nat>, i: nat, j: nat)
    requires PortsOk(base, used) && i < j < |used|
    ensures BlocksDisjoint(used[i], used[j])
  {
    var p, q := used[i] - base, used[j] - base;
    assert p == p / 3 * 3 && q == q / 3 * 3;
  }

  lemma {:induction false} LatticeCount(base: nat, used: seq<nat>, j: nat)
    requires PortsOk(base, used)
    ensures CountBelow(used, PortAt(base, j)) <= j
    decreases j
  {
    if j == 0 {
      NoneBelow(used, base);
    } else {
      LatticeCount(base, used, j - 1);
      CountBelowNext(base, used, j - 1);
    }
  }

  lemma {:induction false} NoneBelow(used: seq<nat>, bound: nat)
    requires forall i :: 0 <= i < |used| ==> used[i] >= bound
    ensures CountBelow(used, bound) == 0
  {
    if used != [] {
      NoneBelow(used[1..], bound);
    }
  }

  // Between two neighbouring lattice points lies at most one used port.
  lemma {:induction false} CountBelowNext(base: nat, used: seq<nat>, j: nat)
    requires PortsOk(base, used)
    ensures CountBelow(used, PortAt(base, j + 1)) <= CountBelow(used, PortAt(base, j)) + 1
    ensures PortAt(base, j) !in used
        ==> CountBelow(used, PortAt(base, j + 1)) == CountBelow(used, PortAt(base, j))
  {
    if used != [] {
      CountBelowNext(base, used[1..], j);
      var p := used[0] - base;
      assert p == p / 3 * 3;
      if used[0] == PortAt(base, j) {
        assert PortAt(base, j) !in used[1..];
      }
    }
  }

  // On the lattice the search finds the least unused port, within 3n of the base, and the ports stay on the
  // lattice when it is taken.
  lemma LatticeIsKept(base: nat, used: seq<nat>)
    requires PortsOk(base, used)
    ensures exists j: nat :: IsLeastFree(base, used, j) && FreePort(base, used) == PortAt(base, j) && j <= |used|
    ensures PortsOk(base, used + [FreePort(base, used)])
  {
    var j := LeastFreeExists(base, used);
    FreePortIsFree(base, used, j);
    if j > 0 {
      LatticeCount(base, used, j - 1);
      CountOfRun(base, used, j - 1);
    }
  }

  lemma CountOfRun(base: nat, used: seq<nat>, j: nat)
    requires RunIsIn(base, used, j + 1)
    ensures CountBelow(used, PortAt(base, j)) >= j
  {
    SortKeepsRun(base, used, j + 1);
    RunFillsPrefix(base, Sort(used), j + 1);
    CountBelowMultiset(used, Sort(used), PortAt(base, j));
  }

  // Off the lattice neither holds: one stray port below the base hides that the base is taken, and a port
  // between two lattice points gets an overlapping neighbour.
  lemma StrayPortsCollide()
    ensures FreePort(3000, [2997, 3000]) == 3000
    ensures FreePort(3000, [3001]) == 3000 && !BlocksDisjoint(3000, 3001)
  {
    assert Sort([3000]) == [3000];
    assert [2997, 3000][1..] == [3000];
    assert Sort([2997, 3000]) == [2997, 3000];
    assert Sort([3001]) == [3001];
  }
}
