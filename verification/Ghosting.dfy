/**
  Ghosting: which entities a player is shown, and how many players an entity is shown to
  (dGame/EntityManager.cpp, dGame/dComponents/GhostComponent.cpp, dGame/Entity.cpp).
 */
module Ghosting {
  import opened Basics

  type ObjectId = Int64

  // What fits in the signed byte after negative values have been cut off.
  type Observers = n: int | 0 <= n <= 127

  const AUDIO_EMITTER: int := 6368

  datatype Point = Point(x: real, y: real, z: real)

  datatype Candidate = Candidate(id: ObjectId, position: Point, lot: int, collectible: nat, observers: Observers)

  datatype Player = Player(
    id: ObjectId,
    hasMissions: bool,
    reference: Point,
    overridePoint: Point,
    isOverridden: bool,
    collected: set<nat>,
    observed: set<ObjectId>
  )

  datatype World = World(
    candidates: seq<Candidate>,
    players: seq<Player>,
    minSquared: real,
    maxSquared: real,
    zone: nat
  )

  function DistanceSquared(a: Point, b: Point): real {
    (a.x - b.x) * (a.x - b.x) + (a.y - b.y) * (a.y - b.y) + (a.z - b.z) * (a.z - b.z)
  }

  function ReferencePoint(p: Player): Point {
    if p.isOverridden then p.overridePoint else p.reference
  }

  // The assignment wraps to a signed byte first.
  function AsObservers(v: int): Observers {
    var byte := (v + 128) % 256 - 128;
    if byte < 0 then 0 else byte
  }

  lemma OneMoreOrLess(o: Observers)
    ensures AsObservers(o + 1) == if o == 127 then 0 else o + 1
    ensures AsObservers(o - 1) == if o == 0 then 0 else o - 1
  {
  }

  // ----- deciding

  datatype Verdict = Hide | Show | Keep

  // A collectible that the player has is not shown.
  predicate IsCollected(w: World, p: Player, c: Candidate) {
    c.collectible != 0 && (c.collectible + w.zone * 256) % TWO_32 in p.collected
  }

  function FarEnough(w: World, c: Candidate): real {
    if c.lot == AUDIO_EMITTER then w.minSquared else w.maxSquared
  }

  // The player's own update.
  function PlayersVerdict(w: World, p: Player, c: Candidate): Verdict {
    var distance := DistanceSquared(ReferencePoint(p), c.position);
    if c.id in p.observed && distance > FarEnough(w, c) && !p.isOverridden then Hide
    else if c.id !in p.observed && w.minSquared > distance && !IsCollected(w, p, c) then Show
    else Keep
  }

  // The entity's own check, which knows of no exceptions.
  function EntitysVerdict(w: World, p: Player, c: Candidate): Verdict {
    var distance := DistanceSquared(c.position, ReferencePoint(p));
    if c.id in p.observed && distance > w.maxSquared then Hide
    else if c.id !in p.observed && w.minSquared > distance then Show
    else Keep
  }

  function CarryOut(w: World, k: nat, i: nat, v: Verdict): World
    requires k < |w.players| && i < |w.candidates|
  {
    var p, c := w.players[k], w.candidates[i];
    match v
    case Keep => w
    case Hide =>
      w.(players := w.players[k := p.(observed := p.observed - {c.id})],
         candidates := w.candidates[i := c.(observers := AsObservers(c.observers - 1))])
    case Show =>
      w.(players := w.players[k := p.(observed := p.observed + {c.id})],
         candidates := w.candidates[i := c.(observers := AsObservers(c.observers + 1))])
  }

  // The first n candidates, for one player.
  function UpdateFirst(w: World, k: nat, n: nat): (r: World)
    requires k < |w.players| && n <= |w.candidates|
    ensures |r.players| == |w.players| && |r.candidates| == |w.candidates|
  {
    if n == 0 then w
    else
      var r := UpdateFirst(w, k, n - 1);
      CarryOut(r, k, n - 1, PlayersVerdict(r, r.players[k], r.candidates[n - 1]))
  }

  function UpdateGhosting(w: World, k: nat): World
    requires k < |w.players|
  {
    if w.players[k].hasMissions then UpdateFirst(w, k, |w.candidates|) else w
  }

  // The first n players, for one candidate.
  function CheckFirst(w: World, i: nat, n: nat): (r: World)
    requires i < |w.candidates| && n <= |w.players|
    ensures |r.players| == |w.players| && |r.candidates| == |w.candidates|
  {
    if n == 0 then w
    else
      var r := CheckFirst(w, i, n - 1);
      CarryOut(r, n - 1, i, EntitysVerdict(r, r.players[n - 1], r.candidates[i]))
  }

  function CheckGhosting(w: World, i: nat): World
    requires i < |w.candidates|
  {
    CheckFirst(w, i, |w.players|)
  }

  // ----- coming and going

  function FindCandidate(candidates: seq<Candidate>, id: ObjectId): (i: nat)
    ensures i <= |candidates|
    ensures forall j :: 0 <= j < i ==> candidates[j].id != id
    ensures i < |candidates| ==> candidates[i].id == id
  {
    if candidates == [] || candidates[0].id == id then 0 else 1 + FindCandidate(candidates[1..], id)
  }

  // An entity that is not listed yet, whatever its id.  It has no observers: only listed ones are counted.
  function AddCandidate(w: World, c: Candidate): World {
    w.(candidates := w.candidates + [c.(observers := 0)])
  }

  // Nobody is told that the id is no longer in use.
  function RemoveCandidate(w: World, i: nat): World
    requires i < |w.candidates|
  {
    w.(candidates := w.candidates[..i] + w.candidates[i + 1..])
  }

  // Of several candidates with one id a player going finds the first.
  function Forget(candidates: seq<Candidate>, i: nat, p: Player): Candidate
    requires i < |candidates|
  {
    var c := candidates[i];
    if c.id in p.observed && FindCandidate(candidates, c.id) == i then c.(observers := AsObservers(c.observers - 1))
    else c
  }

  function RemovePlayer(w: World, k: nat): World
    requires k < |w.players|
  {
    w.(players := w.players[..k] + w.players[k + 1..],
       candidates := seq(|w.candidates|, i requires 0 <= i < |w.candidates| => Forget(w.candidates, i, w.players[k])))
  }

  datatype Event =
    | PlayerComes(player: Player)
    | PlayerGoes(k: nat)
    | PlayerMoves(k: nat, reference: Point, overridePoint: Point, isOverridden: bool)
    | PlayerCollects(k: nat, collected: set<nat>)
    | CandidateComes(candidate: Candidate)
    | CandidateGoes(i: nat)
    | CandidateMoves(i: nat, position: Point)
    | Update(k: nat)
    | Check(i: nat)

  // Events about players or candidates that are not there do not happen.
  function Step(w: World, e: Event): World {
    match e
    case PlayerComes(p) => w.(players := w.players + [p.(observed := {})])
    case PlayerGoes(k) => if k < |w.players| then RemovePlayer(w, k) else w
    case PlayerMoves(k, reference, overridePoint, isOverridden) =>
      if k < |w.players| then
        w.(players := w.players[k := w.players[k].(reference := reference, overridePoint := overridePoint,
                                                   isOverridden := isOverridden)])
      else w
    case PlayerCollects(k, collected) =>
      if k < |w.players| then w.(players := w.players[k := w.players[k].(collected := collected)]) else w
    case CandidateComes(c) => AddCandidate(w, c)
    case CandidateGoes(i) => if i < |w.candidates| then RemoveCandidate(w, i) else w
    case CandidateMoves(i, position) =>
      if i < |w.candidates| then w.(candidates := w.candidates[i := w.candidates[i].(position := position)]) else w
    case Update(k) => if k < |w.players| then UpdateGhosting(w, k) else w
    case Check(i) => if i < |w.candidates| then CheckGhosting(w, i) else w
  }

  function Run(w: World, events: seq<Event>): World
    decreases |events|
  {
    if events == [] then w else Step(Run(w, events[..|events| - 1]), events[|events| - 1])
  }

  // ----- the count

  function Count(players: seq<Player>, id: ObjectId): (n: nat)
    ensures n <= |players|
  {
    if players == [] then 0 else (if id in players[0].observed then 1 else 0) + Count(players[1..], id)
  }

  predicate DistinctIds(candidates: seq<Candidate>) {
    forall i, j :: 0 <= i < j < |candidates| ==> candidates[i].id != candidates[j].id
  }

  // Every candidate knows how many players are shown its id, which it shares with no other.
  predicate Counted(w: World) {
    DistinctIds(w.candidates) && CountsAreRight(w)
  }

  predicate CountsAreRight(w: World) {
    forall i :: 0 <= i < |w.candidates| ==> w.candidates[i].observers == Count(w.players, w.candidates[i].id)
  }

  lemma {:induction false} CountReplace(players: seq<Player>, k: nat, p: Player, id: ObjectId)
    requires k < |players|
    ensures Count(players[k := p], id) == Count(players, id)
      - (if id in players[k].observed then 1 else 0) + (if id in p.observed then 1 else 0)
  {
    if k > 0 {
      assert players[k := p][1..] == players[1..][k - 1 := p];
      CountReplace(players[1..], k - 1, p, id);
    }
  }

  lemma {:induction false} CountDrop(players: seq<Player>, k: nat, id: ObjectId)
    requires k < |players|
    ensures Count(players[..k] + players[k + 1..], id)
         == Count(players, id) - if id in players[k].observed then 1 else 0
  {
    var after := players[..k] + players[k + 1..];
    if k == 0 {
      assert after == players[1..];
    } else {
      assert after[1..] == players[1..][..k - 1] + players[1..][k..];
      CountDrop(players[1..], k - 1, id);
    }
  }

  lemma {:induction false} CountAppend(players: seq<Player>, p: Player, id: ObjectId)
    ensures Count(players + [p], id) == Count(players, id) + if id in p.observed then 1 else 0
  {
    if players == [] {
      assert players + [p] == [p];
    } else {
      assert (players + [p])[1..] == players[1..] + [p];
      CountAppend(players[1..], p, id);
    }
  }

  lemma {:induction false} CountZero(players: seq<Player>, id: ObjectId)
    ensures Count(players, id) == 0 <==> forall p :: p in players ==> id !in p.observed
  {
    if players != [] {
      CountZero(players[1..], id);
    }
  }

  // ----- carrying out a verdict

  predicate Sensible(w: World, k: nat, i: nat, v: Verdict)
    requires k < |w.players| && i < |w.candidates|
  {
    (v.Hide? ==> w.candidates[i].id in w.players[k].observed)
      && (v.Show? ==> w.candidates[i].id !in w.players[k].observed)
  }

  // The count stays right unless it would pass 127.
  lemma CarryOutCounts(w: World, k: nat, i: nat, v: Verdict)
    requires Counted(w) && k < |w.players| && i < |w.candidates| && Sensible(w, k, i, v)
    ensures Counted(CarryOut(w, k, i, v)) <==> !(v.Show? && w.candidates[i].observers == 127)
  {
    var r := CarryOut(w, k, i, v);
    forall j | 0 <= j < |w.candidates|
      ensures Count(r.players, w.candidates[j].id) == Count(w.players, w.candidates[j].id)
        + if j != i then 0 else if v.Show? then 1 else if v.Hide? then -1 else 0
    {
      CountReplace(w.players, k, r.players[k], w.candidates[j].id);
      assert w.players[k := w.players[k]] == w.players;
    }
    OneMoreOrLess(w.candidates[i].observers);
    assert r.candidates[i].id == w.candidates[i].id;
  }

  // ----- a player's update, candidate by candidate

  function Shown(c: Candidate, v: Verdict): Candidate {
    match v
    case Keep => c
    case Hide => c.(observers := AsObservers(c.observers - 1))
    case Show => c.(observers := AsObservers(c.observers + 1))
  }

  predicate SeesAfter(c: Candidate, p: Player, v: Verdict) {
    v.Show? || (v.Keep? && c.id in p.observed)
  }

  predicate IsAmong(candidates: seq<Candidate>, n: nat, id: ObjectId)
    requires n <= |candidates|
  {
    exists j :: 0 <= j < n && candidates[j].id == id
  }

  // What r makes of candidate j, which was c and on which the verdict was v.
  predicate DealtWith(r: World, k: nat, j: nat, c: Candidate, p: Player, v: Verdict)
    requires k < |r.players| && j < |r.candidates|
  {
    r.candidates[j] == Shown(c, v) && (c.id in r.players[k].observed <==> SeesAfter(c, p, v))
  }

  // Each of the first n candidates has been dealt with as it and the player were at the start.
  ghost predicate Updated(w: World, r: World, k: nat, n: nat)
    requires k < |w.players| && n <= |w.candidates|
  {
    && |r.candidates| == |w.candidates| && |r.players| == |w.players|
    && var p, q := w.players[k], r.players[k];
      && r == w.(candidates := r.candidates, players := w.players[k := p.(observed := q.observed)])
      && (forall j :: 0 <= j < n ==> DealtWith(r, k, j, w.candidates[j], p, PlayersVerdict(w, p, w.candidates[j])))
      && (forall j :: n <= j < |w.candidates| ==> r.candidates[j] == w.candidates[j])
      && (forall id :: !IsAmong(w.candidates, n, id) ==> (id in q.observed <==> id in p.observed))
  }

  lemma VerdictStands(w: World, r: World, k: nat, n: nat)
    requires DistinctIds(w.candidates) && k < |w.players| && n < |w.candidates| && Updated(w, r, k, n)
    ensures r.candidates[n] == w.candidates[n]
    ensures PlayersVerdict(r, r.players[k], r.candidates[n]) == PlayersVerdict(w, w.players[k], w.candidates[n])
    ensures w.candidates[n].id in r.players[k].observed <==> w.candidates[n].id in w.players[k].observed
  {
    assert !IsAmong(w.candidates, n, w.candidates[n].id);
  }

  lemma OneMoreUpdated(w: World, r: World, k: nat, n: nat)
    requires DistinctIds(w.candidates) && k < |w.players| && n < |w.candidates| && Updated(w, r, k, n)
    ensures Updated(w, CarryOut(r, k, n, PlayersVerdict(w, w.players[k], w.candidates[n])), k, n + 1)
  {
    var p, c := w.players[k], w.candidates[n];
    var v := PlayersVerdict(w, p, c);
    var t := CarryOut(r, k, n, v);
    VerdictStands(w, r, k, n);
    assert r.players[k := r.players[k]] == r.players && r.candidates[n := c] == r.candidates;
    assert t == w.(candidates := t.candidates, players := w.players[k := p.(observed := t.players[k].observed)]);
    forall j | 0 <= j <= n ensures DealtWith(t, k, j, w.candidates[j], p, PlayersVerdict(w, p, w.candidates[j])) {
      if j < n {
        assert DealtWith(r, k, j, w.candidates[j], p, PlayersVerdict(w, p, w.candidates[j]));
        assert w.candidates[j].id != c.id;
      }
    }
    forall id | !IsAmong(w.candidates, n + 1, id) ensures id in t.players[k].observed <==> id in p.observed {
      assert id != c.id;
      assert !IsAmong(w.candidates, n, id);
    }
  }

  lemma NextUpdated(w: World, r: World, k: nat, n: nat)
    requires DistinctIds(w.candidates) && k < |w.players| && n < |w.candidates| && Updated(w, r, k, n)
    ensures Updated(w, CarryOut(r, k, n, PlayersVerdict(r, r.players[k], r.candidates[n])), k, n + 1)
  {
    VerdictStands(w, r, k, n);
    OneMoreUpdated(w, r, k, n);
  }

  lemma UpdateNext(w: World, k: nat, n: nat)
    requires k < |w.players| && n < |w.candidates|
    ensures var r := UpdateFirst(w, k, n);
      UpdateFirst(w, k, n + 1) == CarryOut(r, k, n, PlayersVerdict(r, r.players[k], r.candidates[n]))
  {
  }

  lemma {:induction false} UpdateFirstMeans(w: World, k: nat, n: nat)
    requires DistinctIds(w.candidates) && k < |w.players| && n <= |w.candidates|
    ensures Updated(w, UpdateFirst(w, k, n), k, n)
  {
    if n == 0 {
      NoneUpdated(w, k);
    } else {
      var m, r, t := n - 1, UpdateFirst(w, k, n - 1), UpdateFirst(w, k, n);
      UpdateFirstMeans(w, k, m);
      UpdateNext(w, k, m);
      NextUpdated(w, r, k, m);
      assert Updated(w, t, k, m + 1);
    }
  }

  lemma NoneUpdated(w: World, k: nat)
    requires k < |w.players|
    ensures Updated(w, w, k, 0)
  {
    assert w.players[k := w.players[k].(observed := w.players[k].observed)] == w.players;
  }

  // ----- the count after an update

  // A candidate that 127 players are shown is about to be shown to another one.
  predicate Overflows(w: World, k: nat, i: nat)
    requires k < |w.players| && i < |w.candidates|
  {
    w.candidates[i].observers == 127 && PlayersVerdict(w, w.players[k], w.candidates[i]).Show?
  }

  lemma CountAt(w: World, r: World, k: nat, i: nat)
    requires Counted(w) && k < |w.players| && i < |w.candidates| && Updated(w, r, k, |w.candidates|)
    ensures r.candidates[i].id == w.candidates[i].id
    ensures r.candidates[i].observers == Count(r.players, r.candidates[i].id) <==> !Overflows(w, k, i)
  {
    var c, p := w.candidates[i], w.players[k];
    var v := PlayersVerdict(w, p, c);
    assert DealtWith(r, k, i, c, p, v);
    CountReplace(w.players, k, r.players[k], c.id);
    assert r.players == w.players[k := r.players[k]];
    ShownCounts(c, p, v, Count(w.players, c.id), Count(r.players, c.id));
  }

  lemma ShownCounts(c: Candidate, p: Player, v: Verdict, before: nat, after: nat)
    requires c.observers == before
    requires after == before - (if c.id in p.observed then 1 else 0) + (if SeesAfter(c, p, v) then 1 else 0)
    requires (v.Hide? ==> c.id in p.observed) && (v.Show? ==> c.id !in p.observed)
    ensures Shown(c, v).observers == after <==> !(v.Show? && before == 127)
  {
    OneMoreOrLess(c.observers);
  }

  // The counts are right after an update exactly when no signed byte overflows.
  lemma UpdateCounts(w: World, k: nat)
    requires Counted(w) && k < |w.players|
    ensures Counted(UpdateGhosting(w, k))
      <==> !(w.players[k].hasMissions && exists i :: 0 <= i < |w.candidates| && Overflows(w, k, i))
  {
    if w.players[k].hasMissions {
      var r := UpdateGhosting(w, k);
      UpdateFirstMeans(w, k, |w.candidates|);
      forall i | 0 <= i < |w.candidates|
        ensures r.candidates[i].id == w.candidates[i].id
        ensures r.candidates[i].observers == Count(r.players, r.candidates[i].id) <==> !Overflows(w, k, i)
      {
        CountAt(w, r, k, i);
      }
    }
  }

  // ----- a second update

  // Too far to stay shown and near enough to be shown again.
  predicate Flickers(w: World, p: Player, c: Candidate) {
    !p.isOverridden && !IsCollected(w, p, c)
      && FarEnough(w, c) < DistanceSquared(ReferencePoint(p), c.position) < w.minSquared
  }

  predicate SomeFlicker(w: World, p: Player) {
    exists i :: 0 <= i < |w.candidates| && Flickers(w, p, w.candidates[i])
  }

  lemma SecondVerdict(w: World, r: World, k: nat, i: nat)
    requires k < |w.players| && i < |w.candidates| && Updated(w, r, k, |w.candidates|)
    ensures PlayersVerdict(r, r.players[k], r.candidates[i]).Keep? <==> !Flickers(w, w.players[k], w.candidates[i])
  {
    var c, p, d, q := w.candidates[i], w.players[k], r.candidates[i], r.players[k];
    assert DealtWith(r, k, i, c, p, PlayersVerdict(w, p, c));
    assert ReferencePoint(q) == ReferencePoint(p) && d.position == c.position;
    assert IsCollected(r, q, d) == IsCollected(w, p, c) && FarEnough(r, d) == FarEnough(w, c);
  }

  lemma NothingToDo(w: World, r: World, k: nat)
    requires k < |w.players| && Updated(w, r, k, |w.candidates|)
    requires forall i :: 0 <= i < |w.candidates| ==> PlayersVerdict(w, w.players[k], w.candidates[i]).Keep?
    ensures r == w
  {
    var p, q := w.players[k], r.players[k];
    forall i | 0 <= i < |w.candidates|
      ensures r.candidates[i] == w.candidates[i]
      ensures w.candidates[i].id in q.observed <==> w.candidates[i].id in p.observed
    {
      assert DealtWith(r, k, i, w.candidates[i], p, PlayersVerdict(w, p, w.candidates[i]));
    }
    forall id ensures id in q.observed <==> id in p.observed {
      if IsAmong(w.candidates, |w.candidates|, id) {
        var j :| 0 <= j < |w.candidates| && w.candidates[j].id == id;
      }
    }
    assert q.observed == p.observed;
    assert w.players[k := p] == w.players;
    assert r.candidates == w.candidates;
  }

  lemma SomethingToDo(w: World, r: World, k: nat, i: nat)
    requires k < |w.players| && i < |w.candidates| && Updated(w, r, k, |w.candidates|)
    requires !PlayersVerdict(w, w.players[k], w.candidates[i]).Keep?
    ensures r != w
  {
    var c, p := w.candidates[i], w.players[k];
    assert DealtWith(r, k, i, c, p, PlayersVerdict(w, p, c));
  }

  // With nothing moved in between, updating again changes nothing, exactly when nothing flickers.
  lemma UpdatingTwice(w: World, k: nat)
    requires DistinctIds(w.candidates) && k < |w.players|
    ensures var r := UpdateGhosting(w, k);
      UpdateGhosting(r, k) == r <==> !(w.players[k].hasMissions && SomeFlicker(w, w.players[k]))
  {
    if w.players[k].hasMissions {
      var n := |w.candidates|;
      var r := UpdateFirst(w, k, n);
      UpdateFirstMeans(w, k, n);
      IdsStay(w, r, k);
      var s := UpdateFirst(r, k, n);
      UpdateFirstMeans(r, k, n);
      forall i | 0 <= i < n
        ensures PlayersVerdict(r, r.players[k], r.candidates[i]).Keep? <==> !Flickers(w, w.players[k], w.candidates[i])
      {
        SecondVerdict(w, r, k, i);
      }
      if i :| 0 <= i < n && Flickers(w, w.players[k], w.candidates[i]) {
        SomethingToDo(r, s, k, i);
      } else {
        NothingToDo(r, s, k);
      }
    }
  }

  lemma IdsStay(w: World, r: World, k: nat)
    requires k < |w.players| && Updated(w, r, k, |w.candidates|)
    ensures forall i :: 0 <= i < |w.candidates| ==> r.candidates[i].id == w.candidates[i].id
    ensures DistinctIds(w.candidates) ==> DistinctIds(r.candidates)
    ensures r.players[k].hasMissions == w.players[k].hasMissions
  {
    forall i | 0 <= i < |w.candidates| ensures r.candidates[i].id == w.candidates[i].id {
      assert DealtWith(r, k, i, w.candidates[i], w.players[k], PlayersVerdict(w, w.players[k], w.candidates[i]));
    }
  }

  // In particular when the distance for hiding is no less than the one for showing.
  lemma NoFlickering(w: World, k: nat)
    requires DistinctIds(w.candidates) && k < |w.players| && w.minSquared <= w.maxSquared
    ensures UpdateGhosting(UpdateGhosting(w, k), k) == UpdateGhosting(w, k)
  {
    UpdatingTwice(w, k);
  }

  // ----- every step

  lemma {:induction false} SomebodyIsNotShown(players: seq<Player>, k: nat, id: ObjectId)
    requires k < |players| && id !in players[k].observed
    ensures Count(players, id) < |players|
  {
    if k > 0 {
      SomebodyIsNotShown(players[1..], k - 1, id);
    }
  }

  lemma NoOverflow(w: World, k: nat, i: nat)
    requires Counted(w) && k < |w.players| <= 127 && i < |w.candidates|
    ensures !Overflows(w, k, i)
  {
    if w.candidates[i].id !in w.players[k].observed {
      SomebodyIsNotShown(w.players, k, w.candidates[i].id);
    }
  }

  function Gain(v: Verdict): int {
    match v
    case Keep => 0
    case Show => 1
    case Hide => -1
  }

  // How many players are shown candidate i once the first n of them have been decided on.
  function ShownAfter(w: World, i: nat, n: nat): int
    requires i < |w.candidates| && n <= |w.players|
  {
    if n == 0 then Count(w.players, w.candidates[i].id)
    else ShownAfter(w, i, n - 1) + Gain(EntitysVerdict(w, w.players[n - 1], w.candidates[i]))
  }

  // So far only the first n players and the count of candidate i have changed.
  predicate CheckedSoFar(w: World, r: World, i: nat, n: nat)
    requires i < |w.candidates| && n <= |w.players|
  {
    && |r.players| == |w.players| && |r.candidates| == |w.candidates|
    && r == w.(players := r.players, candidates := r.candidates)
    && r.candidates[i] == w.candidates[i].(observers := r.candidates[i].observers)
    && (forall k :: n <= k < |w.players| ==> r.players[k] == w.players[k])
    && Count(r.players, w.candidates[i].id) == ShownAfter(w, i, n)
  }

  lemma SameEntitysVerdict(w: World, r: World, i: nat, n: nat)
    requires i < |w.candidates| && n < |w.players| && CheckedSoFar(w, r, i, n)
    ensures EntitysVerdict(r, r.players[n], r.candidates[i]) == EntitysVerdict(w, w.players[n], w.candidates[i])
  {
  }

  lemma {:induction false} CheckFirstMeans(w: World, i: nat, n: nat)
    requires i < |w.candidates| && n <= |w.players|
    ensures CheckedSoFar(w, CheckFirst(w, i, n), i, n)
    decreases n
  {
    if n > 0 {
      var r := CheckFirst(w, i, n - 1);
      CheckFirstMeans(w, i, n - 1);
      SameEntitysVerdict(w, r, i, n - 1);
      OneMoreChecked(w, r, i, n - 1, EntitysVerdict(w, w.players[n - 1], w.candidates[i]));
    }
  }

  lemma OneMoreChecked(w: World, r: World, i: nat, n: nat, v: Verdict)
    requires i < |w.candidates| && n < |w.players| && CheckedSoFar(w, r, i, n)
    requires v == EntitysVerdict(w, w.players[n], w.candidates[i])
    ensures CheckedSoFar(w, CarryOut(r, n, i, v), i, n + 1)
  {
    var t := CarryOut(r, n, i, v);
    CountReplace(r.players, n, t.players[n], w.candidates[i].id);
    assert t.players == r.players[n := t.players[n]];
  }

  predicate StaysRight(w: World, i: nat, n: nat)
    requires i < |w.candidates| && n <= |w.players|
  {
    forall m :: 0 <= m <= n ==> Counted(CheckFirst(w, i, m))
  }

  predicate NeverTooMany(w: World, i: nat, n: nat)
    requires i < |w.candidates| && n <= |w.players|
  {
    forall m :: 0 <= m <= n ==> ShownAfter(w, i, m) <= 127
  }

  // While an entity is being checked its count stays right exactly for as long as no more than 127 players are shown
  // it at any moment.
  lemma {:induction false} CheckCounts(w: World, i: nat, n: nat)
    requires Counted(w) && i < |w.candidates| && n <= |w.players|
    ensures StaysRight(w, i, n) <==> NeverTooMany(w, i, n)
    decreases n
  {
    if n == 0 {
      assert CheckFirst(w, i, 0) == w && ShownAfter(w, i, 0) == w.candidates[i].observers;
    } else {
      CheckCounts(w, i, n - 1);
      assert StaysRight(w, i, n) <==> StaysRight(w, i, n - 1) && Counted(CheckFirst(w, i, n));
      assert NeverTooMany(w, i, n) <==> NeverTooMany(w, i, n - 1) && ShownAfter(w, i, n) <= 127;
      if Counted(CheckFirst(w, i, n - 1)) {
        NextCheckCounts(w, i, n);
      } else {
        assert !StaysRight(w, i, n - 1);
      }
    }
  }

  lemma NextCheckCounts(w: World, i: nat, n: nat)
    requires i < |w.candidates| && 1 <= n <= |w.players| && Counted(CheckFirst(w, i, n - 1))
    ensures Counted(CheckFirst(w, i, n)) <==> ShownAfter(w, i, n) <= 127
  {
    var r := CheckFirst(w, i, n - 1);
    CheckFirstMeans(w, i, n - 1);
    SameEntitysVerdict(w, r, i, n - 1);
    CarryOutCounts(r, n - 1, i, EntitysVerdict(w, w.players[n - 1], w.candidates[i]));
  }

  // In particular with at most 127 players.
  lemma SmallCrowdCounts(w: World, i: nat)
    requires Counted(w) && i < |w.candidates| && |w.players| <= 127
    ensures Counted(CheckGhosting(w, i))
  {
    var n := |w.players|;
    forall m | 0 <= m <= n ensures ShownAfter(w, i, m) <= 127 {
      CheckFirstMeans(w, i, m);
    }
    CheckCounts(w, i, n);
    assert CheckGhosting(w, i) == CheckFirst(w, i, n);
  }

  lemma GoingCounts(w: World, k: nat)
    requires Counted(w) && k < |w.players|
    ensures Counted(RemovePlayer(w, k))
  {
    var r := RemovePlayer(w, k);
    forall i | 0 <= i < |r.candidates|
      ensures r.candidates[i].id == w.candidates[i].id
      ensures r.candidates[i].observers == Count(r.players, r.candidates[i].id)
    {
      CountDrop(w.players, k, w.candidates[i].id);
      OneMoreOrLess(w.candidates[i].observers);
    }
  }

  lemma ComingCounts(w: World, p: Player)
    requires Counted(w)
    ensures Counted(w.(players := w.players + [p.(observed := {})]))
  {
    forall i | 0 <= i < |w.candidates|
      ensures Count(w.players + [p.(observed := {})], w.candidates[i].id) == Count(w.players, w.candidates[i].id)
    {
      CountAppend(w.players, p.(observed := {}), w.candidates[i].id);
    }
  }

  lemma SameObservedCounts(w: World, k: nat, p: Player)
    requires Counted(w) && k < |w.players| && p.observed == w.players[k].observed
    ensures Counted(w.(players := w.players[k := p]))
  {
    forall i | 0 <= i < |w.candidates|
      ensures Count(w.players[k := p], w.candidates[i].id) == Count(w.players, w.candidates[i].id)
    {
      CountReplace(w.players, k, p, w.candidates[i].id);
    }
  }

  // A player is still shown the id.
  predicate IsRemembered(w: World, c: Candidate) {
    exists p :: p in w.players && c.id in p.observed
  }

  predicate IsListed(w: World, c: Candidate) {
    FindCandidate(w.candidates, c.id) < |w.candidates|
  }

  lemma CandidateComesCounts(w: World, c: Candidate)
    requires Counted(w)
    ensures CountsAreRight(AddCandidate(w, c)) <==> !IsRemembered(w, c)
    ensures DistinctIds(AddCandidate(w, c).candidates) <==> !IsListed(w, c)
  {
    var r := AddCandidate(w, c);
    var n := |w.candidates|;
    CountZero(w.players, c.id);
    assert r.candidates[n] == c.(observers := 0) && forall i :: 0 <= i < n ==> r.candidates[i] == w.candidates[i];
    if IsListed(w, c) {
      assert r.candidates[FindCandidate(w.candidates, c.id)].id == r.candidates[n].id;
    }
  }

  lemma CandidateGoesCounts(w: World, i: nat)
    requires Counted(w) && i < |w.candidates|
    ensures Counted(RemoveCandidate(w, i))
  {
  }

  // An entity becomes a candidate under an id that a player remembers or that another candidate has.
  predicate ReusesId(w: World, e: Event) {
    e.CandidateComes? && (IsRemembered(w, e.candidate) || IsListed(w, e.candidate))
  }

  // With at most 127 players, the counts stay right in every step but for such an arrival.
  lemma StepKeepsCounted(w: World, e: Event)
    requires Counted(w) && |w.players| <= 127
    ensures Counted(Step(w, e)) <==> !ReusesId(w, e)
  {
    match e
    case PlayerComes(p) => ComingCounts(w, p);
    case PlayerGoes(k) =>
      if k < |w.players| {
        GoingCounts(w, k);
      }
    case PlayerMoves(k, reference, overridePoint, isOverridden) =>
      if k < |w.players| {
        SameObservedCounts(w, k, Step(w, e).players[k]);
      }
    case PlayerCollects(k, collected) =>
      if k < |w.players| {
        SameObservedCounts(w, k, Step(w, e).players[k]);
      }
    case CandidateComes(c) => CandidateComesCounts(w, c);
    case CandidateGoes(i) =>
      if i < |w.candidates| {
        CandidateGoesCounts(w, i);
      }
    case CandidateMoves(i, position) =>
    case Update(k) =>
      if k < |w.players| {
        forall i | 0 <= i < |w.candidates| ensures !Overflows(w, k, i) {
          NoOverflow(w, k, i);
        }
        UpdateCounts(w, k);
      }
    case Check(i) =>
      if i < |w.candidates| {
        SmallCrowdCounts(w, i);
      }
  }

  predicate IsRegular(w: World, events: seq<Event>) {
    forall n :: 0 <= n < |events| ==>
      var before := Run(w, events[..n]);
      |before.players| <= 127 && !ReusesId(before, events[n])
  }

  lemma {:induction false} RunKeepsCounted(w: World, events: seq<Event>)
    requires w.candidates == [] && w.players == [] && IsRegular(w, events)
    ensures Counted(Run(w, events))
    decreases |events|
  {
    if events != [] {
      var n := |events| - 1;
      forall m | 0 <= m < n
        ensures var before := Run(w, events[..n][..m]);
          |before.players| <= 127 && !ReusesId(before, events[..n][m])
      {
        assert events[..n][..m] == events[..m];
      }
      RunKeepsCounted(w, events[..n]);
      StepKeepsCounted(Run(w, events[..n]), events[n]);
    }
  }

  // ----- how counts go wrong

  const ORIGIN: Point := Point(0.0, 0.0, 0.0)
  const NOBODY: World := World([], [], 10000.0, 22500.0, 0)
  const ROCK: Candidate := Candidate(5, ORIGIN, 1000, 0, 0)
  const ALICE: Player := Player(1, true, ORIGIN, ORIGIN, false, {}, {})
  const SHOWN: World := NOBODY.(players := [ALICE.(observed := {5})], candidates := [ROCK.(observers := 1)])

  const ARRIVALS: seq<Event> := [PlayerComes(ALICE), CandidateComes(ROCK)]

  lemma BothArrive()
    ensures Run(NOBODY, ARRIVALS) == NOBODY.(players := [ALICE], candidates := [ROCK])
  {
    RunNext(NOBODY, [], PlayerComes(ALICE));
    RunNext(NOBODY, [PlayerComes(ALICE)], CandidateComes(ROCK));
    assert [] + [PlayerComes(ALICE)] == [PlayerComes(ALICE)];
    assert [PlayerComes(ALICE)] + [CandidateComes(ROCK)] == ARRIVALS;
    assert Step(NOBODY, PlayerComes(ALICE)).players == [ALICE];
  }

  lemma AliceIsShown()
    ensures Run(NOBODY, ARRIVALS + [Update(0)]) == SHOWN
  {
    var both := NOBODY.(players := [ALICE], candidates := [ROCK]);
    BothArrive();
    RunNext(NOBODY, ARRIVALS, Update(0));
    RockIsNear(both, 0);
    assert UpdateFirst(both, 0, 0) == both;
    assert UpdateFirst(both, 0, 1) == CarryOut(both, 0, 0, Show);
    assert ALICE.observed + {5} == {5};
    assert both.players[0 := ALICE.(observed := {5})] == SHOWN.players;
    assert both.candidates[0 := ROCK.(observers := 1)] == SHOWN.candidates;
    assert UpdateGhosting(both, 0) == SHOWN;
  }

  lemma RunNext(w: World, events: seq<Event>, e: Event)
    ensures Run(w, events + [e]) == Step(Run(w, events), e)
  {
    assert (events + [e])[..|events|] == events;
  }

  lemma RockIsNear(w: World, i: nat)
    requires i < |w.candidates| && w.candidates[i].id == 5 && w.candidates[i].position == ORIGIN
    requires w.candidates[i].collectible == 0 && w.minSquared == 10000.0
    ensures PlayersVerdict(w, ALICE, w.candidates[i]).Show? && EntitysVerdict(w, ALICE, w.candidates[i]).Show?
  {
    assert DistanceSquared(ORIGIN, ORIGIN) == 0.0;
    assert 5 !in ALICE.observed;
  }

  // The entity is deleted and comes back under its id, which the player remembers.
  lemma RememberedIdMiscounts() returns (events: seq<Event>)
    ensures var w := Run(NOBODY, events);
      |w.players| == 1 && w.candidates == [ROCK] && Count(w.players, ROCK.id) == 1 && !CountsAreRight(w)
  {
    AliceIsShown();
    events := ARRIVALS + [Update(0)];
    RunNext(NOBODY, events, CandidateGoes(0));
    RunNext(NOBODY, events + [CandidateGoes(0)], CandidateComes(ROCK));
    events := events + [CandidateGoes(0)] + [CandidateComes(ROCK)];
    var w := SHOWN.(candidates := [ROCK]);
    assert RemoveCandidate(SHOWN, 0).candidates == [];
    assert Run(NOBODY, events) == w && w.candidates[0] == ROCK;
  }

  // A second entity becomes a candidate under the id of the first; the player is shown the id, and only one of
  // them learns of it.
  lemma ListedIdMiscounts() returns (events: seq<Event>)
    ensures var w := Run(NOBODY, events);
      |w.players| == 1 && w.candidates == [ROCK.(observers := 1), ROCK] && Count(w.players, ROCK.id) == 1
      && !CountsAreRight(w)
  {
    var both := NOBODY.(players := [ALICE], candidates := [ROCK, ROCK]);
    BothArrive();
    RunNext(NOBODY, ARRIVALS, CandidateComes(ROCK));
    assert Run(NOBODY, ARRIVALS + [CandidateComes(ROCK)]) == both;
    RunNext(NOBODY, ARRIVALS + [CandidateComes(ROCK)], Update(0));
    TwinIsOverlooked(both);
    events := ARRIVALS + [CandidateComes(ROCK)] + [Update(0)];
    assert Run(NOBODY, events).candidates[1] == ROCK;
  }

  lemma TwinIsOverlooked(both: World)
    requires both == NOBODY.(players := [ALICE], candidates := [ROCK, ROCK])
    ensures UpdateGhosting(both, 0) == SHOWN.(candidates := [ROCK.(observers := 1), ROCK])
  {
    var one := SHOWN.(candidates := [ROCK.(observers := 1), ROCK]);
    RockIsNear(both, 0);
    assert UpdateFirst(both, 0, 0) == both;
    assert ALICE.observed + {5} == {5};
    assert both.players[0 := ALICE.(observed := {5})] == one.players;
    assert both.candidates[0 := ROCK.(observers := 1)] == one.candidates;
    assert UpdateFirst(both, 0, 1) == CarryOut(both, 0, 0, Show) == one;
    assert UpdateFirst(both, 0, 2) == CarryOut(one, 0, 1, PlayersVerdict(one, one.players[0], one.candidates[1]));
    assert PlayersVerdict(one, one.players[0], one.candidates[1]).Keep?;
  }

  // n players in one place.
  function Crowd(p: Player, n: nat): (crowd: seq<Player>)
    ensures |crowd| == n && forall k :: 0 <= k < n ==> crowd[k] == p
  {
    seq(n, _ => p)
  }

  lemma {:induction false} CrowdComes(n: nat) returns (events: seq<Event>)
    ensures Run(NOBODY, events) == NOBODY.(players := Crowd(ALICE, n))
  {
    if n == 0 {
      events := [];
      assert Crowd(ALICE, 0) == [];
    } else {
      var before := CrowdComes(n - 1);
      RunNext(NOBODY, before, PlayerComes(ALICE));
      events := before + [PlayerComes(ALICE)];
      assert Crowd(ALICE, n - 1) + [ALICE] == Crowd(ALICE, n);
    }
  }

  // n of m players in a crowd have been shown the entity.
  function HalfShown(m: nat, n: nat): World
    requires n <= m <= 128
  {
    NOBODY.(players := Crowd(ALICE.(observed := {5}), n) + Crowd(ALICE, m - n),
            candidates := [ROCK.(observers := if n < 128 then n else 0)])
  }

  lemma OneMoreShown(m: nat, n: nat)
    requires n < m <= 128
    ensures var w := HalfShown(m, n);
      CarryOut(w, n, 0, EntitysVerdict(w, w.players[n], w.candidates[0])) == HalfShown(m, n + 1)
  {
    var w := HalfShown(m, n);
    OneMoreOrLess(n);
    RockIsNear(w, 0);
    assert w.players[n] == ALICE && ALICE.observed + {5} == {5};
    assert w.players[n := ALICE.(observed := {5})] == HalfShown(m, n + 1).players;
  }

  lemma {:induction false} CrowdIsShown(m: nat, n: nat)
    requires n <= m <= 128
    ensures CheckFirst(HalfShown(m, 0), 0, n) == HalfShown(m, n)
  {
    if n > 0 {
      CrowdIsShown(m, n - 1);
      OneMoreShown(m, n - 1);
    }
  }

  lemma {:induction false} CrowdCounts(p: Player, n: nat, id: ObjectId)
    requires id in p.observed
    ensures Count(Crowd(p, n), id) == n
  {
    if n > 0 {
      assert Crowd(p, n)[1..] == Crowd(p, n - 1);
      CrowdCounts(p, n - 1, id);
    }
  }

  // An entity that 128 players are shown believes that it is shown to nobody.
  lemma CrowdOverflows(m: nat) returns (events: seq<Event>)
    requires m == 128
    ensures var w := Run(NOBODY, events);
      |w.players| == m && w.candidates == [ROCK] && Count(w.players, ROCK.id) == m && !CountsAreRight(w)
  {
    var before := CrowdComes(m);
    RunNext(NOBODY, before, CandidateComes(ROCK));
    RunNext(NOBODY, before + [CandidateComes(ROCK)], Check(0));
    events := before + [CandidateComes(ROCK)] + [Check(0)];
    NobodyShownYet(m);
    CrowdIsShown(m, m);
    assert Run(NOBODY, before + [CandidateComes(ROCK)]) == HalfShown(m, 0);
    assert Run(NOBODY, events) == HalfShown(m, m);
    AllShown(m);
  }

  lemma NobodyShownYet(m: nat)
    requires m <= 128
    ensures NOBODY.(players := Crowd(ALICE, m), candidates := [ROCK]) == HalfShown(m, 0)
  {
    assert Crowd(ALICE.(observed := {5}), 0) + Crowd(ALICE, m) == Crowd(ALICE, m);
  }

  lemma AllShown(m: nat)
    requires m == 128
    ensures var w := HalfShown(m, m);
      |w.players| == m && w.candidates == [ROCK] && Count(w.players, ROCK.id) == m && !CountsAreRight(w)
  {
    var w := HalfShown(m, m);
    assert w.players == Crowd(ALICE.(observed := {5}), m);
    CrowdCounts(ALICE.(observed := {5}), m, 5);
    assert w.candidates[0].observers == 0;
  }
}
