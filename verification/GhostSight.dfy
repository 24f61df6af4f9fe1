/**
  What a player is shown, from positions alone (dGame/EntityManager.cpp, dCommon/NiPoint3.inl).
 */
module GhostSight {
  import opened Basics
  import opened Ghosting

  // ----- distance

  // Pythagoras in three dimensions, so that every axis counts alike.
  lemma DistanceMeans(a: Point, dx: real, dy: real, dz: real)
    ensures DistanceSquared(a, Point(a.x + dx, a.y + dy, a.z + dz)) == dx * dx + dy * dy + dz * dz
    ensures DistanceSquared(a, Point(a.x + dx, a.y, a.z)) == dx * dx
    ensures DistanceSquared(a, Point(a.x, a.y + dy, a.z)) == dy * dy
    ensures DistanceSquared(a, Point(a.x, a.y, a.z + dz)) == dz * dz
  {
  }

  function Times(x: real, y: real): real {
    x * y
  }

  lemma PositiveTimes(x: real, y: real)
    requires (x > 0.0 && y > 0.0) || (x < 0.0 && y < 0.0)
    ensures Times(x, y) > 0.0
  {
    assert x > 0.0 ==> x * y > 0.0 * y;
    assert x < 0.0 ==> x * y > 0.0 * y;
  }

  lemma SquareMeans(x: real)
    ensures if x == 0.0 then Times(x, x) == 0.0 else Times(x, x) > 0.0
  {
    if x != 0.0 {
      PositiveTimes(x, x);
    }
  }

  lemma SumOfSquares(a: Point, b: Point, x: real, y: real, z: real)
    requires x == a.x - b.x && y == a.y - b.y && z == a.z - b.z
    ensures DistanceSquared(a, b) == Times(x, x) + Times(y, y) + Times(z, z)
  {
  }

  // Only the point itself is at no distance, and every other one is at a positive distance.
  lemma NoDistance(a: Point, b: Point)
    ensures if a == b then DistanceSquared(a, b) == 0.0 else DistanceSquared(a, b) > 0.0
  {
    var x, y, z := a.x - b.x, a.y - b.y, a.z - b.z;
    SumOfSquares(a, b, x, y, z);
    SquareMeans(x);
    SquareMeans(y);
    SquareMeans(z);
  }

  // ----- a player's update

  // The player has the collectible, which is known by its number and the zone.
  predicate Has(w: World, p: Player, c: Candidate) {
    c.collectible != 0 && (c.collectible + 256 * w.zone) % TWO_32 in p.collected
  }

  // How far away a candidate may be and still be shown to somebody whose view is not overridden.
  function Reach(w: World, c: Candidate): real {
    if c.lot == 6368 then w.minSquared else w.maxSquared
  }

  // Whether a player at this point is to be shown a candidate.
  predicate ToBeShown(w: World, p: Player, eye: Point, c: Candidate) {
    var distance := DistanceSquared(eye, c.position);
    if c.id in p.observed then p.isOverridden || distance <= Reach(w, c)
    else distance < w.minSquared && !Has(w, p, c)
  }

  // After an update a player is shown exactly what is to be shown at the point it looks from; nothing else changes
  // but the counts.
  lemma UpdateShows(w: World, k: nat)
    requires DistinctIds(w.candidates) && k < |w.players| && w.players[k].hasMissions
    ensures var p, r := w.players[k], Step(w, Update(k));
      var eye := if p.isOverridden then p.overridePoint else p.reference;
      && r == w.(candidates := r.candidates, players := w.players[k := p.(observed := r.players[k].observed)])
      && (forall j :: 0 <= j < |w.candidates| ==>
           var c := w.candidates[j];
           c.id in r.players[k].observed <==> ToBeShown(w, p, eye, c))
      && (forall id :: (forall c :: c in w.candidates ==> c.id != id) ==>
           (id in r.players[k].observed <==> id in p.observed))
  {
    var n, p, r := |w.candidates|, w.players[k], Step(w, Update(k));
    UpdateFirstMeans(w, k, n);
    forall j | 0 <= j < n
      ensures w.candidates[j].id in r.players[k].observed <==> ToBeShown(w, p, ReferencePoint(p), w.candidates[j])
    {
      assert DealtWith(r, k, j, w.candidates[j], p, PlayersVerdict(w, p, w.candidates[j]));
    }
    forall id | forall c :: c in w.candidates ==> c.id != id
      ensures id in r.players[k].observed <==> id in p.observed
    {
      assert !IsAmong(w.candidates, n, id);
    }
  }

  lemma NoMissionsNoUpdate(w: World, k: nat)
    requires k < |w.players| && !w.players[k].hasMissions
    ensures Step(w, Update(k)) == w
  {
  }

  // A player is judged from where it has moved to, or from the point that overrides it, and then keeps all it is shown.
  lemma MovedPlayerIsJudged(w: World, k: nat, reference: Point, overridePoint: Point, isOverridden: bool, j: nat)
    requires DistinctIds(w.candidates) && k < |w.players| && w.players[k].hasMissions && j < |w.candidates|
    ensures var p, c := w.players[k], w.candidates[j];
      var r := Step(Step(w, PlayerMoves(k, reference, overridePoint, isOverridden)), Update(k));
      var distance := DistanceSquared(if isOverridden then overridePoint else reference, c.position);
      (c.id in r.players[k].observed) == if c.id in p.observed then isOverridden || distance <= Reach(w, c)
                                         else distance < w.minSquared && !Has(w, p, c)
  {
    var moved := Step(w, PlayerMoves(k, reference, overridePoint, isOverridden));
    UpdateShows(moved, k);
    assert moved.candidates[j] == w.candidates[j];
  }

  // ----- an entity's check

  lemma {:induction false} CheckFirstShows(w: World, i: nat, n: nat, k: nat)
    requires i < |w.candidates| && n <= |w.players| && k < n
    ensures var p, c, q := w.players[k], w.candidates[i], CheckFirst(w, i, n).players[k];
      var distance := DistanceSquared(c.position, if p.isOverridden then p.overridePoint else p.reference);
      && q == p.(observed := q.observed)
      && (c.id in q.observed <==> if c.id in p.observed then distance <= w.maxSquared else distance < w.minSquared)
      && (forall id :: id != c.id ==> (id in q.observed <==> id in p.observed))
    decreases n
  {
    CheckFirstMeans(w, i, n - 1);
    var r := CheckFirst(w, i, n - 1);
    if k < n - 1 {
      CheckFirstShows(w, i, n - 1, k);
      assert CheckFirst(w, i, n).players[k] == r.players[k];
    } else {
      assert r.players[k] == w.players[k];
    }
  }

  // After an entity's check exactly those players are shown it who are near enough, whatever they have collected.
  lemma CheckShows(w: World, i: nat, k: nat)
    requires i < |w.candidates| && k < |w.players|
    ensures var p, c, r := w.players[k], w.candidates[i], Step(w, Check(i));
      var q := r.players[k];
      var distance := DistanceSquared(c.position, if p.isOverridden then p.overridePoint else p.reference);
      && q == p.(observed := q.observed)
      && (c.id in q.observed <==> if c.id in p.observed then distance <= w.maxSquared else distance < w.minSquared)
      && (forall id :: id != c.id ==> (id in q.observed <==> id in p.observed))
  {
    CheckFirstShows(w, i, |w.players|, k);
  }

  // An entity is judged from where it has moved to.
  lemma MovedCandidateIsJudged(w: World, i: nat, position: Point, k: nat)
    requires i < |w.candidates| && k < |w.players|
    ensures var p, c := w.players[k], w.candidates[i];
      var q := Step(Step(w, CandidateMoves(i, position)), Check(i)).players[k];
      var distance := DistanceSquared(position, if p.isOverridden then p.overridePoint else p.reference);
      c.id in q.observed <==> if c.id in p.observed then distance <= w.maxSquared else distance < w.minSquared
  {
    CheckShows(Step(w, CandidateMoves(i, position)), i, k);
  }

  // What a player has collected since is not shown any more by an update, but stays if it was shown.
  lemma CollectedIsNotShown(w: World, k: nat, collected: set<nat>, j: nat)
    requires DistinctIds(w.candidates) && k < |w.players| && w.players[k].hasMissions && j < |w.candidates|
    requires w.candidates[j].collectible != 0 && (w.candidates[j].collectible + 256 * w.zone) % TWO_32 in collected
    ensures var r := Step(Step(w, PlayerCollects(k, collected)), Update(k));
      w.candidates[j].id in r.players[k].observed ==> w.candidates[j].id in w.players[k].observed
  {
    var after := Step(w, PlayerCollects(k, collected));
    UpdateShows(after, k);
    assert after.candidates[j] == w.candidates[j];
  }

  // ----- going

  // A player who goes is counted no longer by what it was shown; everybody else stays as they are, in order.
  lemma GoingMeans(w: World, k: nat)
    requires DistinctIds(w.candidates) && k < |w.players|
    ensures var p, r := w.players[k], Step(w, PlayerGoes(k));
      && r == w.(players := w.players[..k] + w.players[k + 1..], candidates := r.candidates)
      && |r.candidates| == |w.candidates|
      && forall i :: 0 <= i < |w.candidates| ==>
        var c := w.candidates[i];
        var less := if c.observers == 0 then 0 else c.observers - 1;
        r.candidates[i] == c.(observers := if c.id in p.observed then less else c.observers)
  {
    forall i | 0 <= i < |w.candidates| ensures FindCandidate(w.candidates, w.candidates[i].id) == i {
      var j := FindCandidate(w.candidates, w.candidates[i].id);
      assert j <= i;
    }
    forall i | 0 <= i < |w.candidates|
      ensures AsObservers(w.candidates[i].observers - 1)
           == if w.candidates[i].observers == 0 then 0 else w.candidates[i].observers - 1
    {
      OneMoreOrLess(w.candidates[i].observers);
    }
  }

  // An entity that goes is no candidate any more, and nobody is told.
  lemma CandidateGoingMeans(w: World, i: nat)
    requires i < |w.candidates|
    ensures Step(w, CandidateGoes(i)) == w.(candidates := w.candidates[..i] + w.candidates[i + 1..])
  {
  }
}
