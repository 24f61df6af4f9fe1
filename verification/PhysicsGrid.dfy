/**
  The physics grid and its entities as objects (dPhysics/dpGrid.cpp, dPhysics/dpEntity.cpp).

  Whether two shapes meet is a parameter of an update: nothing moves while the grid is being updated.
 */
module PhysicsGrid {
  import opened Basics
  import opened GridCells
  import opened GridContacts

  datatype Shape = NoShape | Sphere(radius: real) | Box(width: real)

  const COLLISION_GROUP_DYNAMIC: bv8 := 8

  // Entities that share a group other than the dynamic one do not collide.
  predicate ShareGroup(a: bv8, b: bv8) {
    (a & b) & !COLLISION_GROUP_DYNAMIC != 0
  }

  // Sharing nothing, or the dynamic group alone, is not sharing; any other common group is.
  lemma ShareGroupMeans(a: bv8, b: bv8)
    ensures !ShareGroup(a, b) <==> a & b == 0 || a & b == 8
  {
  }

  lemma OneCommonGroup(a: bv8, b: bv8, group: bv8)
    requires group in {1, 2, 4, 16, 32, 64, 128} && a & group != 0 && b & group != 0
    ensures ShareGroup(a, b)
  {
  }

  class Entity {
    const objectId: Id
    const shape: Shape
    const isStatic: bool
    var collisionGroup: bv8
    var isSleeping: bool
    var isGargantuan: bool
    var scale: real
    var x: real
    var z: real
    var colliding: set<Id>
    var newObjects: seq<Id>
    var removedObjects: seq<Id>

    constructor (objectId: Id, shape: Shape, isStatic: bool)
      ensures Value() == Contacts({}, [], []) && !isGargantuan && !isSleeping && collisionGroup == 0
      ensures this.objectId == objectId && this.shape == shape && this.isStatic == isStatic && x == z == 0.0
    {
      this.objectId, this.shape, this.isStatic := objectId, shape, isStatic;
      collisionGroup, isSleeping, isGargantuan, scale := 0, false, false, 1.0;
      x, z, colliding, newObjects, removedObjects := 0.0, 0.0, {}, [], [];
    }

    ghost function Value(): Contacts
      reads this`colliding, this`newObjects, this`removedObjects
    {
      Contacts(colliding, newObjects, removedObjects)
    }

    ghost predicate IsCleared()
      reads this`newObjects, this`removedObjects
    {
      newObjects == [] && removedObjects == []
    }

    method PreUpdate()
      modifies this`newObjects, this`removedObjects
      ensures IsCleared()
    {
      newObjects, removedObjects := [], [];
    }

    predicate Tests(other: Entity)
      reads this`collisionGroup, other`collisionGroup
    {
      shape != NoShape && !ShareGroup(collisionGroup, other.collisionGroup)
    }

    method CheckCollision(other: Entity, isColliding: bool)
      modifies this`colliding, this`newObjects, this`removedObjects
      ensures Value() == if Tests(other) then Check(old(Value()), Test(other.objectId, isColliding)) else old(Value())
    {
      if shape == NoShape {
        return;
      }
      if ShareGroup(collisionGroup, other.collisionGroup) {
        return;
      }
      var objId := other.objectId;
      var wasFound := objId in colliding;
      if isColliding && !wasFound {
        colliding := colliding + {objId};
        newObjects := newObjects + [objId];
      } else if !isColliding && wasFound {
        colliding := colliding - {objId};
        removedObjects := removedObjects + [objId];
      }
    }
  }

  // Entities are tested unless they share a group other than the dynamic one.
  lemma TestsMeans(s: Entity, d: Entity)
    ensures s.Tests(d)
       <==> s.shape != NoShape && (s.collisionGroup & d.collisionGroup == 0 || s.collisionGroup & d.collisionGroup == 8)
  {
    ShareGroupMeans(s.collisionGroup, d.collisionGroup);
  }

  // ----- what was compared with what

  datatype Visit = Visit(target: Entity, mover: Entity)

  // The tests a target was put to, in order.
  function TestsOf(trace: seq<Visit>, target: Entity, touching: (Entity, Entity) -> bool): seq<Test>
    decreases |trace|
  {
    if trace == [] then []
    else
      var before, v := TestsOf(trace[..|trace| - 1], target, touching), trace[|trace| - 1];
      if v.target == target then before + [Test(v.mover.objectId, touching(target, v.mover))] else before
  }

  lemma TestsOfNext(trace: seq<Visit>, v: Visit, target: Entity, touching: (Entity, Entity) -> bool)
    ensures TestsOf(trace + [v], target, touching)
         == TestsOf(trace, target, touching)
          + if v.target == target then [Test(v.mover.objectId, touching(target, v.mover))] else []
  {
    assert (trace + [v])[..|trace|] == trace;
  }

  // The cells an entity is compared with besides its own: four of its eight neighbours.
  predicate Reaches(from: Spot, to: Spot) {
    || to == from
    || (to.x == from.x - 1 && from.z - 1 <= to.z <= from.z + 1)
    || (to.x == from.x && to.z == from.z - 1)
  }

  // Of two neighbouring cells exactly one is compared with the other, so that no pair of cells is met twice; cells
  // that are no neighbours are never compared.
  lemma NeighboursMeetOnce(a: Spot, b: Spot)
    requires a != b
    ensures a.x - 1 <= b.x <= a.x + 1 && a.z - 1 <= b.z <= a.z + 1 ==> (Reaches(a, b) <==> !Reaches(b, a))
    ensures !(a.x - 1 <= b.x <= a.x + 1 && a.z - 1 <= b.z <= a.z + 1) ==> !Reaches(a, b) && !Reaches(b, a)
  {
  }

  function At(spots: map<Entity, Spot>, x: int, z: int): set<Entity> {
    set e | e in spots && spots[e].x == x && spots[e].z == z
  }

  lemma NeighbourCases(from: Spot, to: Spot)
    ensures Reaches(from, to) <==>
      || (to.x == from.x && to.z == from.z) || (to.x == from.x - 1 && to.z == from.z - 1)
      || (to.x == from.x - 1 && to.z == from.z) || (to.x == from.x && to.z == from.z - 1)
      || (to.x == from.x - 1 && to.z == from.z + 1)
  {
  }

  // The longer trace adds nothing but comparisons of this mover that are due.
  predicate Extends(trace: seq<Visit>, longer: seq<Visit>, mover: Entity, due: set<Visit>) {
    trace <= longer && forall k :: |trace| <= k < |longer| ==> longer[k].mover == mover && longer[k] in due
  }

  predicate HasMet(trace: seq<Visit>, mover: Entity, target: Entity, due: set<Visit>) {
    Visit(target, mover) in due ==> Visit(target, mover) in trace
  }

  predicate HasMetAll(trace: seq<Visit>, mover: Entity, targets: set<Entity>, due: set<Visit>) {
    forall e :: e in targets ==> HasMet(trace, mover, e, due)
  }

  lemma ExtendsOn(trace: seq<Visit>, middle: seq<Visit>, longer: seq<Visit>, mover: Entity, due: set<Visit>)
    requires Extends(trace, middle, mover, due) && Extends(middle, longer, mover, due)
    ensures Extends(trace, longer, mover, due)
  {
  }

  lemma MetStaysMet(trace: seq<Visit>, longer: seq<Visit>, mover: Entity, targets: set<Entity>, due: set<Visit>)
    requires HasMetAll(trace, mover, targets, due) && trace <= longer
    ensures HasMetAll(longer, mover, targets, due)
  {
  }

  lemma MetBoth(trace: seq<Visit>, mover: Entity, a: set<Entity>, b: set<Entity>, due: set<Visit>)
    requires HasMetAll(trace, mover, a, due) && HasMetAll(trace, mover, b, due)
    ensures HasMetAll(trace, mover, a + b, due)
  {
  }

  predicate HasMetFirst(trace: seq<Visit>, mover: Entity, others: seq<Entity>, n: nat, due: set<Visit>)
    requires n <= |others|
  {
    forall k :: 0 <= k < n ==> HasMet(trace, mover, others[k], due)
  }

  lemma MetOneMore(trace: seq<Visit>, middle: seq<Visit>, longer: seq<Visit>, mover: Entity, others: seq<Entity>,
                   i: nat, due: set<Visit>)
    requires i < |others| && Extends(trace, middle, mover, due) && Extends(middle, longer, mover, due)
    requires HasMetFirst(middle, mover, others, i, due) && HasMet(longer, mover, others[i], due)
    ensures Extends(trace, longer, mover, due) && HasMetFirst(longer, mover, others, i + 1, due)
  {
    ExtendsOn(trace, middle, longer, mover, due);
  }

  lemma MetList(trace: seq<Visit>, mover: Entity, others: seq<Entity>, targets: set<Entity>, due: set<Visit>)
    requires HasMetFirst(trace, mover, others, |others|, due) && forall e :: e in targets ==> e in others
    ensures HasMetAll(trace, mover, targets, due)
  {
  }

  // What has been met stays met, and one more group has been.
  lemma Gain(trace: seq<Visit>, middle: seq<Visit>, longer: seq<Visit>, mover: Entity, met: set<Entity>,
             more: set<Entity>, due: set<Visit>)
    requires Extends(trace, middle, mover, due) && Extends(middle, longer, mover, due)
    requires HasMetAll(middle, mover, met, due) && HasMetAll(longer, mover, more, due)
    ensures Extends(trace, longer, mover, due) && HasMetAll(longer, mover, met + more, due)
  {
    ExtendsOn(trace, middle, longer, mover, due);
    MetStaysMet(middle, longer, mover, met, due);
    MetBoth(longer, mover, met, more, due);
  }

  predicate HasMetAllBut(trace: seq<Visit>, mover: Entity, others: set<Entity>, left: set<Entity>, due: set<Visit>) {
    forall e :: e in others && e !in left ==> HasMet(trace, mover, e, due)
  }

  lemma GainOne(trace: seq<Visit>, middle: seq<Visit>, longer: seq<Visit>, mover: Entity, others: set<Entity>,
                left: set<Entity>, other: Entity, due: set<Visit>)
    requires Extends(trace, middle, mover, due) && Extends(middle, longer, mover, due)
    requires HasMetAllBut(middle, mover, others, left, due) && HasMet(longer, mover, other, due)
    ensures Extends(trace, longer, mover, due) && HasMetAllBut(longer, mover, others, left - {other}, due)
  {
    ExtendsOn(trace, middle, longer, mover, due);
    forall e | e in others && e !in left ensures HasMet(longer, mover, e, due) {
      assert HasMet(middle, mover, e, due);
    }
  }

  lemma NewVisit(trace: seq<Visit>, longer: seq<Visit>, mover: Entity, other: Entity, due: set<Visit>)
    requires longer == trace + if Visit(other, mover) in due then [Visit(other, mover)] else []
    ensures Extends(trace, longer, mover, due) && HasMet(longer, mover, other, due)
  {
  }

  lemma CheckAllNext(c: Contacts, tests: seq<Test>, t: Test)
    ensures CheckAll(c, tests + [t]) == Check(CheckAll(c, tests), t)
  {
    assert (tests + [t])[..|tests|] == tests;
  }

  predicate OnlyDue(trace: seq<Visit>, due: set<Visit>) {
    forall v :: v in trace ==> v in due
  }

  predicate IsDone(trace: seq<Visit>, mover: Entity, due: set<Visit>) {
    forall v :: v in due && v.mover == mover ==> v in trace
  }

  predicate AreDone(trace: seq<Visit>, movers: set<Entity>, due: set<Visit>) {
    forall e :: e in movers ==> IsDone(trace, e, due)
  }

  predicate FirstAreDone(trace: seq<Visit>, movers: seq<Entity>, n: nat, due: set<Visit>)
    requires n <= |movers|
  {
    forall k :: 0 <= k < n ==> IsDone(trace, movers[k], due)
  }

  lemma OneMoreIsDone(trace: seq<Visit>, longer: seq<Visit>, movers: seq<Entity>, i: nat, due: set<Visit>)
    requires i < |movers| && trace <= longer
    requires FirstAreDone(trace, movers, i, due) && IsDone(longer, movers[i], due)
    ensures FirstAreDone(longer, movers, i + 1, due)
  {
    forall k | 0 <= k < i ensures IsDone(longer, movers[k], due) {
      assert IsDone(trace, movers[k], due);
    }
  }

  lemma ListIsDone(trace: seq<Visit>, movers: seq<Entity>, some: set<Entity>, due: set<Visit>)
    requires FirstAreDone(trace, movers, |movers|, due) && forall e :: e in some ==> e in movers
    ensures AreDone(trace, some, due)
  {
  }

  lemma DoneGrows(trace: seq<Visit>, longer: seq<Visit>, done: set<Entity>, more: set<Entity>, due: set<Visit>)
    requires trace <= longer && AreDone(trace, done, due) && forall e :: e in more ==> IsDone(longer, e, due)
    ensures AreDone(longer, done + more, due)
  {
    forall e | e in done ensures IsDone(longer, e, due) {
      assert IsDone(trace, e, due);
    }
  }

  lemma DoneShrinks(trace: seq<Visit>, done: set<Entity>, some: set<Entity>, due: set<Visit>)
    requires AreDone(trace, done, due) && some <= done
    ensures AreDone(trace, some, due)
  {
  }

  function InColumn(spots: map<Entity, Spot>, x: int, upTo: int): set<Entity> {
    set e | e in spots && spots[e].x == x && spots[e].z < upTo
  }

  function InColumns(spots: map<Entity, Spot>, upTo: int): set<Entity> {
    set e | e in spots && spots[e].x < upTo
  }

  lemma {:induction false} TestComesFrom(trace: seq<Visit>, target: Entity, touching: (Entity, Entity) -> bool, t: Test)
    returns (v: Visit)
    requires t in TestsOf(trace, target, touching)
    ensures v in trace && v.target == target && t == Test(v.mover.objectId, touching(target, v.mover))
    decreases |trace|
  {
    var before := trace[..|trace| - 1];
    if t in TestsOf(before, target, touching) {
      v := TestComesFrom(before, target, touching, t);
    } else {
      v := trace[|trace| - 1];
    }
  }

  lemma {:induction false} VisitIsTest(trace: seq<Visit>, v: Visit, touching: (Entity, Entity) -> bool)
    requires v in trace
    ensures Test(v.mover.objectId, touching(v.target, v.mover)) in TestsOf(trace, v.target, touching)
    decreases |trace|
  {
    var before := trace[..|trace| - 1];
    if v in before {
      VisitIsTest(before, v, touching);
    }
  }

  lemma TestedOneWay(tests: seq<Test>, t: Test)
    requires Consistent(tests) && t in tests
    ensures Test(t.id, !t.touching) !in tests && IsTested(tests, t.id)
  {
  }

  class Grid {
    const numCells: nat
    const cellSize: nat
    var cells: Cells<Entity>
    var gargantuan: map<Id, Entity>
    // The cell of each entity in the grid, and the entities that were gargantuan when they were added.
    ghost var spots: map<Entity, Spot>
    ghost var giants: set<Entity>

    constructor (numCells: nat, cellSize: nat)
      requires numCells > 0 && cellSize > 0
      ensures Valid() && spots == map[] && this.numCells == numCells && this.cellSize == cellSize
    {
      this.numCells, this.cellSize := numCells, cellSize;
      cells := seq(numCells, _ => seq(numCells, _ => []));
      gargantuan, spots, giants := map[], map[], {};
    }

    function SpotAt(x: real, z: real): (s: Spot)
      requires numCells > 0 && cellSize > 0
      ensures s.x < numCells && s.z < numCells
    {
      Spot(CellIndex(x, numCells, cellSize), CellIndex(z, numCells, cellSize))
    }

    ghost predicate KnowsGiants()
      reads this`spots, this`giants, this`gargantuan
    {
      && (forall e :: e in giants ==> e in spots && e.objectId in gargantuan && gargantuan[e.objectId] == e)
      && (forall id :: id in gargantuan ==> gargantuan[id] in giants && gargantuan[id].objectId == id)
    }

    // The records agree with each other, whatever the positions.
    ghost predicate Filed()
      reads this
    {
      numCells > 0 && cellSize > 0 && KnowsGiants() && Placed(cells, numCells, spots)
    }

    ghost predicate Valid()
      reads this, spots.Keys`x, spots.Keys`z
    {
      Filed() && forall e :: e in spots ==> spots[e] == SpotAt(e.x, e.z)
    }

    method CellOf(x: real, z: real) returns (cellX: nat, cellZ: nat)
      requires numCells > 0 && cellSize > 0
      ensures Spot(cellX, cellZ) == SpotAt(x, z)
    {
      var i := Truncated(Round(x), cellSize) + numCells / 2;
      var j := Truncated(Round(z), cellSize) + numCells / 2;
      cellX := Clamp(i, 0, numCells - 1);
      cellZ := Clamp(j, 0, numCells - 1);
    }

    // ----- coming, moving, going

    method PushInto(entity: Entity, cellX: nat, cellZ: nat)
      requires Filed() && entity !in spots && cellX < numCells && cellZ < numCells
      modifies this`cells, this`spots
      ensures Filed() && spots == old(spots)[entity := Spot(cellX, cellZ)]
    {
      PushPlaces(cells, numCells, spots, entity, Spot(cellX, cellZ));
      cells := Push(cells, cellX, cellZ, entity);
      spots := spots[entity := Spot(cellX, cellZ)];
    }

    method FileAsGiant(entity: Entity)
      requires Filed() && entity in spots && entity.objectId !in gargantuan
      modifies this`gargantuan, this`giants
      ensures Filed() && giants == old(giants) + {entity}
    {
      gargantuan := gargantuan[entity.objectId := entity];
      giants := giants + {entity};
    }

    method Place(entity: Entity)
      requires Valid() && entity !in spots
      modifies this`cells, this`spots
      ensures Valid() && spots == old(spots)[entity := SpotAt(entity.x, entity.z)]
    {
      var cellX, cellZ := CellOf(entity.x, entity.z);
      PushInto(entity, cellX, cellZ);
      forall e | e in spots ensures spots[e] == SpotAt(e.x, e.z) {
        if e != entity {
          assert spots[e] == old(spots[e]);
        }
      }
    }

    predicate IsGiant(entity: Entity)
      reads entity`scale, entity`isGargantuan
    {
      entity.scale >= (cellSize * 2) as real || entity.isGargantuan
    }

    // Of several gargantuan entities with one id the first one is known as such.
    method Add(entity: Entity)
      requires Valid() && entity !in spots
      modifies this
      ensures Valid() && spots == old(spots)[entity := SpotAt(entity.x, entity.z)]
      ensures IsGiant(entity) && entity.objectId !in old(gargantuan) ==> giants == old(giants) + {entity}
      ensures !IsGiant(entity) || entity.objectId in old(gargantuan) ==> giants == old(giants)
    {
      Place(entity);
      if IsGiant(entity) && entity.objectId !in gargantuan {
        FileAsGiant(entity);
      }
    }

    method Transfer(entity: Entity, oldCellX: nat, oldCellZ: nat, cellX: nat, cellZ: nat)
      requires Filed() && entity in spots && spots[entity] == Spot(oldCellX, oldCellZ)
      requires cellX < numCells && cellZ < numCells
      modifies this`cells, this`spots
      ensures Filed() && spots == old(spots)[entity := Spot(cellX, cellZ)]
    {
      MovePlaces(cells, numCells, spots, entity, Spot(cellX, cellZ));
      cells := Pull(cells, oldCellX, oldCellZ, entity);
      cells := Push(cells, cellX, cellZ, entity);
      spots := spots[entity := Spot(cellX, cellZ)];
    }

    // The entity still has its old position; the cells already have the new one.
    method Move(entity: Entity, x: real, z: real)
      requires Valid() && entity in spots
      modifies this`cells, this`spots
      ensures Filed() && spots == old(spots)[entity := SpotAt(x, z)]
    {
      var oldCellX, oldCellZ := CellOf(entity.x, entity.z);
      var cellX, cellZ := CellOf(x, z);
      if oldCellX == cellX && oldCellZ == cellZ {
        return;
      }
      Transfer(entity, oldCellX, oldCellZ, cellX, cellZ);
    }

    method ForgetGiant(id: Id)
      requires Filed()
      modifies this`gargantuan, this`giants
      ensures Filed() && giants == set e | e in old(giants) && e.objectId != id
    {
      gargantuan := gargantuan - {id};
      giants := set e | e in giants && e.objectId != id;
    }

    method PullFrom(entity: Entity, cellX: nat, cellZ: nat)
      requires Filed() && entity !in giants && cellX < numCells && cellZ < numCells
      requires entity in spots ==> spots[entity] == Spot(cellX, cellZ)
      modifies this`cells, this`spots
      ensures Filed() && spots == old(spots) - {entity}
    {
      if entity in spots {
        PullPlaces(cells, numCells, spots, entity);
      } else {
        PullAbsent(cells, numCells, spots, entity, Spot(cellX, cellZ));
        assert spots - {entity} == spots;
      }
      cells := Pull(cells, cellX, cellZ, entity);
      spots := spots - {entity};
    }

    // The entity need not be in the grid.
    method Delete(entity: Entity)
      requires Valid()
      modifies this
      ensures Valid() && spots == old(spots) - {entity}
      ensures giants == set e | e in old(giants) && e.objectId != entity.objectId
      ensures forall id :: id in gargantuan ==> gargantuan[id] != entity
    {
      var oldCellX, oldCellZ := CellOf(entity.x, entity.z);
      ForgetGiant(entity.objectId);
      PullFrom(entity, oldCellX, oldCellZ);
    }

    // ----- one update

    ghost predicate Meets(mover: Entity, target: Entity)
      reads this`spots, this`giants, mover`isSleeping, mover`collisionGroup, target`collisionGroup
    {
      && mover in spots && target in spots
      && !mover.isStatic && !mover.isSleeping && target.isStatic && target.Tests(mover)
      && (Reaches(spots[mover], spots[target]) || target in giants)
    }

    // Whatever shares the cell of an entity that is awake, and whatever is gargantuan, is compared with it if it is
    // static; nothing else is ever compared, and nothing with an entity that is static or asleep.
    lemma WhoMeets(mover: Entity, target: Entity)
      requires mover in spots && target in spots && target.Tests(mover)
      ensures (!mover.isStatic && !mover.isSleeping && target.isStatic
               && (spots[mover] == spots[target] || target in giants)) ==> Meets(mover, target)
      ensures mover.isStatic || mover.isSleeping || !target.isStatic ==> !Meets(mover, target)
    {
    }

    // The comparisons that an update has to make.
    ghost predicate AreDue(due: set<Visit>)
      reads this`spots, this`giants, spots.Keys`isSleeping, spots.Keys`collisionGroup
    {
      && (forall v :: v in due ==> v.mover in spots && v.target in spots)
      && (forall d, s :: d in spots && s in spots ==> (Visit(s, d) in due <==> Meets(d, s)))
    }

    method ClearCell(cell: seq<Entity>)
      requires forall e :: e in cell ==> e in spots
      modifies spots.Keys`newObjects, spots.Keys`removedObjects
      ensures forall e :: e in cell ==> e.IsCleared()
      ensures forall e :: e in spots && old(e.IsCleared()) ==> e.IsCleared()
    {
      for i := 0 to |cell|
        invariant forall k :: 0 <= k < i ==> cell[k].IsCleared()
        invariant forall e :: e in spots && old(e.IsCleared()) ==> e.IsCleared()
      {
        cell[i].PreUpdate();
      }
    }

    method PreUpdateColumn(x: nat)
      requires Filed() && x < numCells
      modifies spots.Keys`newObjects, spots.Keys`removedObjects
      ensures forall e :: e in spots && spots[e].x == x ==> e.IsCleared()
      ensures forall e :: e in spots && old(e.IsCleared()) ==> e.IsCleared()
    {
      for z := 0 to numCells
        invariant forall e :: e in spots && spots[e].x == x && spots[e].z < z ==> e.IsCleared()
        invariant forall e :: e in spots && old(e.IsCleared()) ==> e.IsCleared()
      {
        assert Holds(cells[x][z], spots, Spot(x, z));
        ClearCell(cells[x][z]);
        assert forall e :: e in spots && spots[e] == Spot(x, z) ==> e in cells[x][z];
      }
    }

    method PreUpdateAll()
      requires Filed()
      modifies spots.Keys`newObjects, spots.Keys`removedObjects
      ensures forall e :: e in spots ==> e.IsCleared()
    {
      for x := 0 to numCells
        invariant forall e :: e in spots && spots[e].x < x ==> e.IsCleared()
      {
        PreUpdateColumn(x);
      }
    }

    // Every entity has been put to the tests of the trace, and to nothing else, since start.
    ghost predicate Recorded(start: map<Entity, set<Id>>, trace: seq<Visit>, touching: (Entity, Entity) -> bool)
      reads this`spots, spots.Keys`colliding, spots.Keys`newObjects, spots.Keys`removedObjects
    {
      && start.Keys == spots.Keys
      && forall e :: e in spots ==>
          e.Value() == CheckAll(Contacts(start[e], [], []), TestsOf(trace, e, touching))
    }

    method HandleEntity(entity: Entity, other: Entity, touching: (Entity, Entity) -> bool,
                        ghost start: map<Entity, set<Id>>, ghost trace: seq<Visit>)
      returns (ghost longer: seq<Visit>)
      requires other in spots && Recorded(start, trace, touching)
      modifies other`colliding, other`newObjects, other`removedObjects
      ensures Recorded(start, longer, touching)
      ensures longer == trace + if other.isStatic && other.Tests(entity) then [Visit(other, entity)] else []
    {
      longer := trace;
      if other.isStatic {
        if other.Tests(entity) {
          longer := trace + [Visit(other, entity)];
        }
        other.CheckCollision(entity, touching(other, entity));
        forall e | e in spots
          ensures e.Value() == CheckAll(Contacts(start[e], [], []), TestsOf(longer, e, touching))
        {
          TestsOfNext(trace, Visit(other, entity), e, touching);
          CheckAllNext(Contacts(start[e], [], []), TestsOf(trace, e, touching),
                       Test(entity.objectId, touching(other, entity)));
        }
      }
    }

    ghost predicate IsMoving(entity: Entity)
      reads this`spots, entity`isSleeping
    {
      entity in spots && !entity.isStatic && !entity.isSleeping
    }

    ghost predicate IsNear(entity: Entity, other: Entity)
      reads this`spots, this`giants
    {
      entity in spots && other in spots && (Reaches(spots[entity], spots[other]) || other in giants)
    }

    // In the middle of an update: the trace so far has been recorded, and an entity is being handled.
    ghost predicate Handling(entity: Entity, start: map<Entity, set<Id>>, trace: seq<Visit>,
                             touching: (Entity, Entity) -> bool, due: set<Visit>)
      reads this`spots, this`giants, spots.Keys`colliding, spots.Keys`newObjects, spots.Keys`removedObjects,
            spots.Keys`isSleeping, spots.Keys`collisionGroup, entity`isSleeping
    {
      IsMoving(entity) && Recorded(start, trace, touching) && AreDue(due)
    }

    lemma DueIfTested(entity: Entity, other: Entity, due: set<Visit>)
      requires AreDue(due) && IsMoving(entity) && IsNear(entity, other)
      ensures Visit(other, entity) in due <==> other.isStatic && other.Tests(entity)
    {
      assert Visit(other, entity) in due <==> Meets(entity, other);
    }

    method Encounter(entity: Entity, other: Entity, touching: (Entity, Entity) -> bool,
                     ghost start: map<Entity, set<Id>>, ghost trace: seq<Visit>, ghost due: set<Visit>)
      returns (ghost longer: seq<Visit>)
      requires Handling(entity, start, trace, touching, due) && IsNear(entity, other)
      modifies spots.Keys`colliding, spots.Keys`newObjects, spots.Keys`removedObjects
      ensures Handling(entity, start, longer, touching, due)
      ensures Extends(trace, longer, entity, due) && HasMet(longer, entity, other, due)
    {
      DueIfTested(entity, other, due);
      longer := HandleEntity(entity, other, touching, start, trace);
      assert AreDue(due);
      NewVisit(trace, longer, entity, other, due);
    }

    method HandleAll(entity: Entity, others: seq<Entity>, touching: (Entity, Entity) -> bool,
                     ghost start: map<Entity, set<Id>>, ghost trace: seq<Visit>, ghost due: set<Visit>)
      returns (ghost longer: seq<Visit>)
      requires Handling(entity, start, trace, touching, due)
      requires forall k :: 0 <= k < |others| ==> IsNear(entity, others[k])
      modifies spots.Keys`colliding, spots.Keys`newObjects, spots.Keys`removedObjects
      ensures Handling(entity, start, longer, touching, due)
      ensures Extends(trace, longer, entity, due) && HasMetFirst(longer, entity, others, |others|, due)
    {
      longer := trace;
      for i := 0 to |others|
        invariant Handling(entity, start, longer, touching, due)
        invariant Extends(trace, longer, entity, due) && HasMetFirst(longer, entity, others, i, due)
      {
        ghost var before := longer;
        longer := Encounter(entity, others[i], touching, start, longer, due);
        MetOneMore(trace, before, longer, entity, others, i, due);
      }
    }

    // A neighbouring cell, if there is one.
    method HandleNeighbour(entity: Entity, x: int, z: int, touching: (Entity, Entity) -> bool,
                           ghost start: map<Entity, set<Id>>, ghost trace: seq<Visit>, ghost due: set<Visit>)
      returns (ghost longer: seq<Visit>)
      requires Filed() && Handling(entity, start, trace, touching, due)
      requires 0 <= x < numCells && 0 <= z < numCells ==> Reaches(spots[entity], Spot(x, z))
      modifies spots.Keys`colliding, spots.Keys`newObjects, spots.Keys`removedObjects
      ensures Handling(entity, start, longer, touching, due) && Extends(trace, longer, entity, due)
      ensures HasMetAll(longer, entity, At(spots, x, z), due)
    {
      longer := trace;
      if 0 <= x < numCells && 0 <= z < numCells {
        assert Holds(cells[x][z], spots, Spot(x, z));
        longer := HandleAll(entity, cells[x][z], touching, start, trace, due);
        AllAtAreInCell(x, z);
        MetList(longer, entity, cells[x][z], At(spots, x, z), due);
      } else {
        assert forall e :: e in spots ==> Holds(cells[spots[e].x][spots[e].z], spots, spots[e]);
        assert At(spots, x, z) == {};
      }
    }

    lemma AllAtAreInCell(x: nat, z: nat)
      requires Filed() && x < numCells && z < numCells
      ensures forall e :: e in At(spots, x, z) ==> e in cells[x][z]
    {
      assert Holds(cells[x][z], spots, Spot(x, z));
      forall e | e in At(spots, x, z) ensures e in cells[x][z] {
        assert spots[e] == Spot(x, z);
      }
    }

    lemma GargantuanAreGiants()
      requires KnowsGiants()
      ensures gargantuan.Values == giants
    {
      forall e | e in gargantuan.Values ensures e in giants {
        var id :| id in gargantuan && gargantuan[id] == e;
      }
      forall e | e in giants ensures e in gargantuan.Values {
        assert gargantuan[e.objectId] == e;
      }
    }

    method HandleOneOf(entity: Entity, left: set<Entity>, touching: (Entity, Entity) -> bool,
                       ghost start: map<Entity, set<Id>>, ghost trace: seq<Visit>, ghost due: set<Visit>)
      returns (ghost longer: seq<Visit>, other: Entity)
      requires Handling(entity, start, trace, touching, due)
      requires left != {} && forall e :: e in left ==> IsNear(entity, e)
      modifies spots.Keys`colliding, spots.Keys`newObjects, spots.Keys`removedObjects
      ensures Handling(entity, start, longer, touching, due) && other in left
      ensures Extends(trace, longer, entity, due) && HasMet(longer, entity, other, due)
    {
      other :| other in left;
      longer := Encounter(entity, other, touching, start, trace, due);
    }

    // In whatever order they come.
    method HandleSet(entity: Entity, others: set<Entity>, touching: (Entity, Entity) -> bool,
                     ghost start: map<Entity, set<Id>>, ghost trace: seq<Visit>, ghost due: set<Visit>)
      returns (ghost longer: seq<Visit>)
      requires Handling(entity, start, trace, touching, due) && forall e :: e in others ==> IsNear(entity, e)
      modifies spots.Keys`colliding, spots.Keys`newObjects, spots.Keys`removedObjects
      ensures Handling(entity, start, longer, touching, due)
      ensures Extends(trace, longer, entity, due) && HasMetAll(longer, entity, others, due)
    {
      longer := trace;
      var left := others;
      while left != {}
        invariant left <= others
        invariant Handling(entity, start, longer, touching, due)
        invariant Extends(trace, longer, entity, due) && HasMetAllBut(longer, entity, others, left, due)
      {
        ghost var before := longer;
        var other;
        longer, other := HandleOneOf(entity, left, touching, start, longer, due);
        GainOne(trace, before, longer, entity, others, left, other, due);
        left := left - {other};
      }
    }

    method HandleGargantuans(entity: Entity, touching: (Entity, Entity) -> bool,
                             ghost start: map<Entity, set<Id>>, ghost trace: seq<Visit>, ghost due: set<Visit>)
      returns (ghost longer: seq<Visit>)
      requires Filed() && Handling(entity, start, trace, touching, due)
      modifies spots.Keys`colliding, spots.Keys`newObjects, spots.Keys`removedObjects
      ensures Handling(entity, start, longer, touching, due)
      ensures Extends(trace, longer, entity, due) && HasMetAll(longer, entity, giants, due)
    {
      GargantuanAreGiants();
      longer := HandleSet(entity, gargantuan.Values, touching, start, trace, due);
    }

    method HandleOwnCell(entity: Entity, x: int, z: int, touching: (Entity, Entity) -> bool,
                         ghost start: map<Entity, set<Id>>, ghost trace: seq<Visit>, ghost due: set<Visit>)
      returns (ghost longer: seq<Visit>)
      requires Filed() && Handling(entity, start, trace, touching, due)
      requires 0 <= x && 0 <= z && spots[entity] == Spot(x, z)
      modifies spots.Keys`colliding, spots.Keys`newObjects, spots.Keys`removedObjects
      ensures Handling(entity, start, longer, touching, due) && Extends(trace, longer, entity, due)
      ensures HasMetAll(longer, entity, At(spots, x, z) + At(spots, x - 1, z - 1), due)
    {
      longer := HandleNeighbour(entity, x, z, touching, start, trace, due);
      ghost var t1 := longer;
      longer := HandleNeighbour(entity, x - 1, z - 1, touching, start, longer, due);
      Gain(trace, t1, longer, entity, At(spots, x, z), At(spots, x - 1, z - 1), due);
    }

    method HandleSides(entity: Entity, x: int, z: int, touching: (Entity, Entity) -> bool,
                       ghost start: map<Entity, set<Id>>, ghost trace: seq<Visit>, ghost due: set<Visit>)
      returns (ghost longer: seq<Visit>)
      requires Filed() && Handling(entity, start, trace, touching, due)
      requires 0 <= x && 0 <= z && spots[entity] == Spot(x, z)
      modifies spots.Keys`colliding, spots.Keys`newObjects, spots.Keys`removedObjects
      ensures Handling(entity, start, longer, touching, due) && Extends(trace, longer, entity, due)
      ensures HasMetAll(longer, entity, At(spots, x - 1, z) + At(spots, x, z - 1), due)
    {
      longer := HandleNeighbour(entity, x - 1, z, touching, start, trace, due);
      ghost var t1 := longer;
      longer := HandleNeighbour(entity, x, z - 1, touching, start, longer, due);
      Gain(trace, t1, longer, entity, At(spots, x - 1, z), At(spots, x, z - 1), due);
    }

    // All that a moving entity is compared with.
    method HandleMover(entity: Entity, x: int, z: int, touching: (Entity, Entity) -> bool,
                       ghost start: map<Entity, set<Id>>, ghost trace: seq<Visit>, ghost due: set<Visit>)
      returns (ghost longer: seq<Visit>)
      requires Filed() && Handling(entity, start, trace, touching, due)
      requires 0 <= x && 0 <= z && spots[entity] == Spot(x, z)
      modifies spots.Keys`colliding, spots.Keys`newObjects, spots.Keys`removedObjects
      ensures Handling(entity, start, longer, touching, due)
      ensures Extends(trace, longer, entity, due) && HasMetAll(longer, entity, spots.Keys, due)
    {
      ghost var own := At(spots, x, z) + At(spots, x - 1, z - 1);
      ghost var sides := At(spots, x - 1, z) + At(spots, x, z - 1);
      ghost var corner := At(spots, x - 1, z + 1);
      longer := HandleOwnCell(entity, x, z, touching, start, trace, due);
      ghost var t1 := longer;
      longer := HandleSides(entity, x, z, touching, start, longer, due);
      ghost var t2 := longer;
      Gain(trace, t1, t2, entity, own, sides, due);
      longer := HandleNeighbour(entity, x - 1, z + 1, touching, start, longer, due);
      ghost var t3 := longer;
      Gain(trace, t2, t3, entity, own + sides, corner, due);
      longer := HandleGargantuans(entity, touching, start, longer, due);
      Gain(trace, t3, longer, entity, own + sides + corner, giants, due);
      EverythingDueIsCovered(entity, x, z, own, sides, corner, longer, due);
    }

    lemma EverythingDueIsCovered(entity: Entity, x: int, z: int, own: set<Entity>, sides: set<Entity>,
                                 corner: set<Entity>, trace: seq<Visit>, due: set<Visit>)
      requires AreDue(due) && entity in spots && spots[entity].x == x && spots[entity].z == z
      requires own == At(spots, x, z) + At(spots, x - 1, z - 1)
      requires sides == At(spots, x - 1, z) + At(spots, x, z - 1) && corner == At(spots, x - 1, z + 1)
      requires HasMetAll(trace, entity, own + sides + corner + giants, due)
      ensures HasMetAll(trace, entity, spots.Keys, due)
    {
      forall e | e in spots ensures HasMet(trace, entity, e, due) {
        if Visit(e, entity) in due {
          assert Meets(entity, e);
          NeighbourCases(spots[entity], spots[e]);
          assert e in own + sides + corner + giants;
        }
      }
    }

    // ----- the whole grid

    ghost predicate Updating(start: map<Entity, set<Id>>, trace: seq<Visit>, touching: (Entity, Entity) -> bool,
                             due: set<Visit>)
      reads this`spots, this`giants, spots.Keys`colliding, spots.Keys`newObjects, spots.Keys`removedObjects,
            spots.Keys`isSleeping, spots.Keys`collisionGroup
    {
      Recorded(start, trace, touching) && AreDue(due) && OnlyDue(trace, due)
    }

    lemma StandersAreNotDue(entity: Entity, trace: seq<Visit>, due: set<Visit>)
      requires AreDue(due) && entity in spots && (entity.isStatic || entity.isSleeping)
      ensures IsDone(trace, entity, due)
    {
      forall v | v in due ensures v.mover != entity {
        assert v == Visit(v.target, v.mover);
        assert Meets(v.mover, v.target);
      }
    }

    lemma MoverIsDone(entity: Entity, trace: seq<Visit>, longer: seq<Visit>, due: set<Visit>)
      requires AreDue(due) && OnlyDue(trace, due) && Extends(trace, longer, entity, due)
      requires HasMetAll(longer, entity, spots.Keys, due)
      ensures OnlyDue(longer, due) && IsDone(longer, entity, due)
    {
      forall v | v in due && v.mover == entity ensures v in longer {
        assert v == Visit(v.target, entity) && v.target in spots;
        assert HasMet(longer, entity, v.target, due);
      }
    }

    method HandleOne(en: Entity, x: nat, z: nat, touching: (Entity, Entity) -> bool,
                     ghost start: map<Entity, set<Id>>, ghost trace: seq<Visit>, ghost due: set<Visit>)
      returns (ghost longer: seq<Visit>)
      requires Filed() && en in spots && spots[en] == Spot(x, z) && Updating(start, trace, touching, due)
      modifies spots.Keys`colliding, spots.Keys`newObjects, spots.Keys`removedObjects
      ensures Updating(start, longer, touching, due) && trace <= longer && IsDone(longer, en, due)
    {
      longer := trace;
      if en.isStatic || en.isSleeping {
        StandersAreNotDue(en, longer, due);
      } else {
        longer := HandleMover(en, x, z, touching, start, trace, due);
        MoverIsDone(en, trace, longer, due);
      }
    }

    method HandleEntities(entities: seq<Entity>, x: nat, z: nat, touching: (Entity, Entity) -> bool,
                          ghost start: map<Entity, set<Id>>, ghost trace: seq<Visit>, ghost due: set<Visit>)
      returns (ghost longer: seq<Visit>)
      requires Filed() && Updating(start, trace, touching, due)
      requires forall k :: 0 <= k < |entities| ==> entities[k] in spots && spots[entities[k]] == Spot(x, z)
      modifies spots.Keys`colliding, spots.Keys`newObjects, spots.Keys`removedObjects
      ensures Updating(start, longer, touching, due) && trace <= longer
      ensures FirstAreDone(longer, entities, |entities|, due)
    {
      longer := trace;
      for i := 0 to |entities|
        invariant Updating(start, longer, touching, due) && trace <= longer
        invariant FirstAreDone(longer, entities, i, due)
      {
        ghost var before := longer;
        longer := HandleOne(entities[i], x, z, touching, start, longer, due);
        OneMoreIsDone(before, longer, entities, i, due);
      }
    }

    method HandleCell(x: nat, z: nat, touching: (Entity, Entity) -> bool,
                      ghost start: map<Entity, set<Id>>, ghost trace: seq<Visit>, ghost due: set<Visit>)
      returns (ghost longer: seq<Visit>)
      requires Filed() && x < numCells && z < numCells && Updating(start, trace, touching, due)
      modifies spots.Keys`colliding, spots.Keys`newObjects, spots.Keys`removedObjects
      ensures Updating(start, longer, touching, due) && trace <= longer
      ensures AreDone(longer, At(spots, x, z), due)
    {
      assert Holds(cells[x][z], spots, Spot(x, z));
      longer := HandleEntities(cells[x][z], x, z, touching, start, trace, due);
      AllAtAreInCell(x, z);
      ListIsDone(longer, cells[x][z], At(spots, x, z), due);
    }

    method HandleColumn(x: nat, touching: (Entity, Entity) -> bool,
                        ghost start: map<Entity, set<Id>>, ghost trace: seq<Visit>, ghost due: set<Visit>)
      returns (ghost longer: seq<Visit>)
      requires Filed() && x < numCells && Updating(start, trace, touching, due)
      modifies spots.Keys`colliding, spots.Keys`newObjects, spots.Keys`removedObjects
      ensures Updating(start, longer, touching, due) && trace <= longer
      ensures AreDone(longer, InColumn(spots, x, numCells), due)
    {
      longer := trace;
      for z := 0 to numCells
        invariant Updating(start, longer, touching, due) && trace <= longer
        invariant AreDone(longer, InColumn(spots, x, z), due)
      {
        ghost var before := longer;
        longer := HandleCell(x, z, touching, start, longer, due);
        DoneGrows(before, longer, InColumn(spots, x, z), At(spots, x, z), due);
        DoneShrinks(longer, InColumn(spots, x, z) + At(spots, x, z), InColumn(spots, x, z + 1), due);
      }
    }

    method HandleCells(touching: (Entity, Entity) -> bool, ghost start: map<Entity, set<Id>>, ghost due: set<Visit>)
      returns (ghost trace: seq<Visit>)
      requires Filed() && Updating(start, [], touching, due)
      modifies spots.Keys`colliding, spots.Keys`newObjects, spots.Keys`removedObjects
      ensures Updating(start, trace, touching, due) && forall v :: v in due ==> v in trace
    {
      trace := [];
      assert forall e :: e in spots ==> spots[e].x < numCells && spots[e].z < numCells;
      for x := 0 to numCells
        invariant Updating(start, trace, touching, due)
        invariant AreDone(trace, InColumns(spots, x), due)
      {
        ghost var before := trace;
        trace := HandleColumn(x, touching, start, trace, due);
        DoneGrows(before, trace, InColumns(spots, x), InColumn(spots, x, numCells), due);
        DoneShrinks(trace, InColumns(spots, x) + InColumn(spots, x, numCells), InColumns(spots, x + 1), due);
      }
      forall v | v in due ensures v in trace {
        assert v.mover in InColumns(spots, numCells);
        assert IsDone(trace, v.mover, due);
      }
    }

    // What an entity makes of an update that found it with the contacts before.
    ghost predicate IsUpdated(s: Entity, before: set<Id>, touching: (Entity, Entity) -> bool)
      reads this`spots, this`giants, s, spots.Keys`isSleeping, spots.Keys`collisionGroup
    {
      && Distinct(s.newObjects) && Distinct(s.removedObjects)
      && (forall id :: id in s.newObjects <==> id in s.colliding && id !in before)
      && (forall id :: id in s.removedObjects <==> id !in s.colliding && id in before)
      && (forall d :: d in spots && Meets(d, s) ==> (d.objectId in s.colliding <==> touching(s, d)))
      && (forall id :: IsUnmet(s, id) ==> (id in s.colliding <==> id in before))
    }

    ghost predicate IsUnmet(s: Entity, id: Id)
      reads this`spots, this`giants, s`collisionGroup, spots.Keys`isSleeping, spots.Keys`collisionGroup
    {
      forall d :: d in spots && Meets(d, s) ==> d.objectId != id
    }

    // The movers of one id that an entity is compared with all touch it, or none of them does.
    ghost predicate MoversAgree(s: Entity, touching: (Entity, Entity) -> bool)
      reads this`spots, this`giants, s`collisionGroup, spots.Keys`isSleeping, spots.Keys`collisionGroup
    {
      forall d, e :: d in spots && e in spots && Meets(d, s) && Meets(e, s) && d.objectId == e.objectId
        ==> touching(s, d) == touching(s, e)
    }

    // No matter which ids the static entities have.
    lemma DistinctMoversAgree(s: Entity, touching: (Entity, Entity) -> bool)
      requires forall d, e ::
        d in spots && e in spots && !d.isStatic && !e.isStatic && d.objectId == e.objectId ==> d == e
      ensures MoversAgree(s, touching)
    {
    }

    lemma TestsAgree(s: Entity, trace: seq<Visit>, touching: (Entity, Entity) -> bool, due: set<Visit>)
      requires s in spots && MoversAgree(s, touching) && AreDue(due) && OnlyDue(trace, due)
      ensures Consistent(TestsOf(trace, s, touching))
    {
      var tests := TestsOf(trace, s, touching);
      forall i, j | 0 <= i < |tests| && 0 <= j < |tests| && tests[i].id == tests[j].id
        ensures tests[i].touching == tests[j].touching
      {
        var v := TestComesFrom(trace, s, touching, tests[i]);
        var w := TestComesFrom(trace, s, touching, tests[j]);
        assert v == Visit(s, v.mover) && w == Visit(s, w.mover);
        assert Meets(v.mover, s) && Meets(w.mover, s);
      }
    }

    lemma MetIsTested(d: Entity, s: Entity, trace: seq<Visit>, touching: (Entity, Entity) -> bool, due: set<Visit>)
      requires AreDue(due) && d in spots && s in spots && Meets(d, s) && forall v :: v in due ==> v in trace
      requires Consistent(TestsOf(trace, s, touching))
      ensures var tests := TestsOf(trace, s, touching);
        IsTested(tests, d.objectId) && (Test(d.objectId, true) in tests <==> touching(s, d))
    {
      assert Visit(s, d) in due;
      VisitIsTest(trace, Visit(s, d), touching);
      TestedOneWay(TestsOf(trace, s, touching), Test(d.objectId, touching(s, d)));
    }

    lemma UnmetIsUntested(s: Entity, id: Id, trace: seq<Visit>, touching: (Entity, Entity) -> bool, due: set<Visit>)
      requires AreDue(due) && OnlyDue(trace, due) && s in spots && IsTested(TestsOf(trace, s, touching), id)
      ensures !IsUnmet(s, id)
    {
      var yes := Test(id, true) in TestsOf(trace, s, touching);
      var v := TestComesFrom(trace, s, touching, Test(id, yes));
      assert Meets(v.mover, s) && v.mover.objectId == id by {
        assert v == Visit(s, v.mover) && v in due;
      }
    }

    lemma TraceSettles(s: Entity, start: map<Entity, set<Id>>, trace: seq<Visit>, touching: (Entity, Entity) -> bool,
                       due: set<Visit>)
      requires s in spots && Updating(start, trace, touching, due) && forall v :: v in due ==> v in trace
      ensures IsUpdated(s, start[s], touching) <==> MoversAgree(s, touching)
    {
      if MoversAgree(s, touching) {
        AgreeingMoversSettle(s, start, trace, touching, due);
      } else {
        var d, e :| d in spots && e in spots && Meets(d, s) && Meets(e, s) && d.objectId == e.objectId
          && touching(s, d) != touching(s, e);
        assert !((d.objectId in s.colliding <==> touching(s, d)) && (e.objectId in s.colliding <==> touching(s, e)));
      }
    }

    lemma AgreeingMoversSettle(s: Entity, start: map<Entity, set<Id>>, trace: seq<Visit>,
                               touching: (Entity, Entity) -> bool, due: set<Visit>)
      requires s in spots && Updating(start, trace, touching, due) && forall v :: v in due ==> v in trace
      requires MoversAgree(s, touching)
      ensures IsUpdated(s, start[s], touching)
    {
      var tests, before := TestsOf(trace, s, touching), start[s];
      TestsAgree(s, trace, touching, due);
      TestsSettle(before, tests);
      assert forall id :: EndsUp(before, s.Value(), tests, id);
      forall d | d in spots && Meets(d, s) ensures d.objectId in s.colliding <==> touching(s, d) {
        MetIsTested(d, s, trace, touching, due);
        assert EndsUp(before, s.Value(), tests, d.objectId);
      }
      forall id | IsUnmet(s, id) ensures id in s.colliding <==> id in before {
        assert EndsUp(before, s.Value(), tests, id);
        if IsTested(tests, id) {
          UnmetIsUntested(s, id, trace, touching, due);
        }
      }
      Reports(s.Value(), before, tests);
    }

    lemma Reports(c: Contacts, before: set<Id>, tests: seq<Test>)
      requires Settled(before, c, tests)
      ensures forall id :: id in c.added <==> id in c.colliding && id !in before
      ensures forall id :: id in c.removed <==> id !in c.colliding && id in before
    {
      forall id ensures id in c.added <==> id in c.colliding && id !in before {
        assert EndsUp(before, c, tests, id);
      }
      forall id ensures id in c.removed <==> id !in c.colliding && id in before {
        assert EndsUp(before, c, tests, id);
      }
    }

    // After an update each entity's contacts are what the comparisons that were due have made of them.  The contact
    // of every pair that was compared is as the shapes are, all others are as they were, and the entity reports
    // exactly what changed, once, if and only if movers of one id agree.
    method Update(touching: (Entity, Entity) -> bool) returns (ghost trace: seq<Visit>)
      requires Filed()
      modifies spots.Keys`colliding, spots.Keys`newObjects, spots.Keys`removedObjects
      ensures forall v :: v in trace ==> v.mover in spots && v.target in spots && Meets(v.mover, v.target)
      ensures forall d, s :: d in spots && s in spots && Meets(d, s) ==> Visit(s, d) in trace
      ensures forall s :: s in spots ==>
        s.Value() == CheckAll(Contacts(old(s.colliding), [], []), TestsOf(trace, s, touching))
      ensures forall s :: s in spots ==> (IsUpdated(s, old(s.colliding), touching) <==> MoversAgree(s, touching))
    {
      PreUpdateAll();
      ghost var start := map e | e in spots :: e.colliding;
      ghost var due := AllDue();
      NothingRecorded(start, touching);
      trace := HandleCells(touching, start, due);
      TraceIsDue(trace, due);
      forall s | s in spots ensures start[s] == old(s.colliding) {
      }
      forall s | s in spots ensures IsUpdated(s, start[s], touching) <==> MoversAgree(s, touching) {
        TraceSettles(s, start, trace, touching, due);
      }
    }

    lemma TraceIsDue(trace: seq<Visit>, due: set<Visit>)
      requires AreDue(due) && OnlyDue(trace, due) && forall v :: v in due ==> v in trace
      ensures forall v :: v in trace ==> v.mover in spots && v.target in spots && Meets(v.mover, v.target)
      ensures forall d, s :: d in spots && s in spots && Meets(d, s) ==> Visit(s, d) in trace
    {
      forall v | v in trace ensures v.mover in spots && v.target in spots && Meets(v.mover, v.target) {
        assert v == Visit(v.target, v.mover);
      }
    }

    ghost function AllDue(): (due: set<Visit>)
      reads this`spots, this`giants, spots.Keys`isSleeping, spots.Keys`collisionGroup
      ensures AreDue(due)
    {
      set d, s | d in spots && s in spots && Meets(d, s) :: Visit(s, d)
    }

    lemma NothingRecorded(start: map<Entity, set<Id>>, touching: (Entity, Entity) -> bool)
      requires start.Keys == spots.Keys
      requires forall e :: e in spots ==> e.Value() == Contacts(start[e], [], [])
      ensures Recorded(start, [], touching)
    {
    }
  }

  // Wider than a cell.
  predicate IsWide(shape: Shape, cellSize: real) {
    match shape
    case NoShape => false
    case Sphere(radius) => radius + radius > cellSize
    case Box(width) => width > cellSize
  }

  method SetGrid(entity: Entity, grid: Grid)
    requires grid.Valid() && entity !in grid.spots && entity.shape != NoShape
    modifies grid, entity`isGargantuan
    ensures grid.Valid() && grid.spots == old(grid.spots)[entity := grid.SpotAt(entity.x, entity.z)]
    ensures entity.isGargantuan == (old(entity.isGargantuan) || IsWide(entity.shape, grid.cellSize as real))
    ensures forall e :: e in grid.giants <==>
      e in old(grid.giants) || (e == entity && grid.IsGiant(entity) && entity.objectId !in old(grid.gargantuan))
  {
    if entity.shape.Sphere? && entity.shape.radius * 2.0 > grid.cellSize as real {
      entity.isGargantuan := true;
    } else if entity.shape.Box? && entity.shape.width > grid.cellSize as real {
      entity.isGargantuan := true;
    }
    grid.Add(entity);
  }

  // The grid follows an entity to its new position.
  method SetPosition(entity: Entity, grid: Grid, x: real, z: real)
    requires grid.Valid() && entity in grid.spots
    modifies grid`cells, grid`spots, entity`x, entity`z
    ensures grid.Valid() && grid.spots.Keys == old(grid.spots.Keys)
    ensures entity.shape == NoShape ==> entity.x == old(entity.x) && entity.z == old(entity.z)
    ensures entity.shape != NoShape ==> entity.x == x && entity.z == z
  {
    if entity.shape == NoShape {
      return;
    }
    grid.Move(entity, x, z);
    entity.x, entity.z := x, z;
    forall e | e in grid.spots ensures grid.spots[e] == grid.SpotAt(e.x, e.z) {
      if e != entity {
        assert grid.spots[e] == old(grid.spots[e]);
      }
    }
  }

  // ----- movers that disagree

  lemma TwinsDisagree(grid: Grid, s: Entity, d: Entity, e: Entity, touching: (Entity, Entity) -> bool)
    requires d in grid.spots && e in grid.spots && s in grid.spots && d.objectId == e.objectId
    requires grid.spots[d] == grid.spots[s] == grid.spots[e] && s.isStatic && s.Tests(d) && s.Tests(e)
    requires !d.isStatic && !d.isSleeping && !e.isStatic && !e.isSleeping
    requires touching(s, d) != touching(s, e)
    ensures !grid.MoversAgree(s, touching)
  {
    assert grid.Meets(d, s) && grid.Meets(e, s);
  }

  lemma NoGroupIsShared(s: Entity, d: Entity)
    requires s.collisionGroup == 0 && s.shape != NoShape
    ensures s.Tests(d)
  {
  }

  method PutAtOrigin(grid: Grid, id: Id, isStatic: bool) returns (e: Entity)
    requires grid.Valid()
    modifies grid
    ensures grid.Valid() && fresh(e) && grid.spots == old(grid.spots)[e := grid.SpotAt(0.0, 0.0)]
    ensures e.objectId == id && e.shape != NoShape && e.isStatic == isStatic && !e.isSleeping && e.collisionGroup == 0
    ensures e.colliding == {}
  {
    e := new Entity(id, Sphere(1.0), isStatic);
    SetGrid(e, grid);
  }

  // A static entity and two movers, all of one id and in one place.
  method GridWithTwins(id: Id) returns (grid: Grid, target: Entity, first: Entity, second: Entity)
    ensures fresh(grid) && fresh(target) && fresh(first) && fresh(second) && grid.Filed() && first != second
    ensures var origin := grid.SpotAt(0.0, 0.0);
      grid.spots == map[target := origin, first := origin, second := origin]
    ensures target.isStatic && !first.isStatic && !second.isStatic && first.objectId == second.objectId
    ensures !first.isSleeping && !second.isSleeping && target.Tests(first) && target.Tests(second)
    ensures target.colliding == {}
  {
    grid := new Grid(12, 205);
    target := PutAtOrigin(grid, id, true);
    first := PutAtOrigin(grid, id, false);
    second := PutAtOrigin(grid, id, false);
    NoGroupIsShared(target, first);
    NoGroupIsShared(target, second);
  }

  method TwinMoversDisagree(id: Id) returns (grid: Grid, target: Entity, touching: (Entity, Entity) -> bool)
    ensures target in grid.spots && !grid.IsUpdated(target, {}, touching)
  {
    var first, second;
    grid, target, first, second := GridWithTwins(id);
    touching := (s, d) => d == first;
    TwinsDisagree(grid, target, first, second, touching);
    ghost var trace := grid.Update(touching);
    assert !grid.MoversAgree(target, touching);
  }
}
