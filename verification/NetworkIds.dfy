/**
  Network ids of entities (dGame/EntityManager.cpp): a 16-bit counter and a stack of ids given back.

  The class at the end is proved to do what `Step` says.
 */
module NetworkIds {
  import opened Basics

  // Object ids are signed 64-bit numbers.
  type ObjectId = Int64

  // A network id of zero stands for none.
  datatype Registry = Registry(
    entities: map<ObjectId, nat>,
    counter: nat,
    lost: seq<nat>,
    toDelete: seq<ObjectId>
  )

  const EMPTY := Registry(map[], 0, [], [])

  datatype Event =
    | Create(id: ObjectId)
    | Construct(id: ObjectId)
    | Destroy(id: ObjectId)
    | ScheduleForDeletion(id: ObjectId)
    | DeleteEntities

  function NextId(r: Registry): nat {
    if r.lost != [] then r.lost[|r.lost| - 1] else (r.counter + 1) % TWO_16
  }

  function TakeId(r: Registry): Registry {
    if r.lost != [] then r.(lost := r.lost[..|r.lost| - 1]) else r.(counter := (r.counter + 1) % TWO_16)
  }

  function ConstructEntity(r: Registry, id: ObjectId): Registry {
    if id in r.entities && r.entities[id] == 0 then TakeId(r).(entities := r.entities[id := NextId(r)]) else r
  }

  function Schedule(r: Registry, id: ObjectId): Registry {
    if id in r.toDelete then r else r.(toDelete := r.toDelete + [id])
  }

  function DeleteOne(r: Registry, id: ObjectId): Registry {
    var lost := if id in r.entities && r.entities[id] != 0 then r.lost + [r.entities[id]] else r.lost;
    r.(entities := r.entities - {id}, lost := lost)
  }

  // The last one of the list is deleted last.
  function DeleteAll(r: Registry, ids: seq<ObjectId>): Registry
    decreases |ids|
  {
    if ids == [] then r else DeleteOne(DeleteAll(r, ids[..|ids| - 1]), ids[|ids| - 1])
  }

  function Step(r: Registry, e: Event): Registry {
    match e
    case Create(id) => r.(entities := r.entities[id := 0])
    case Construct(id) => ConstructEntity(r, id)
    case Destroy(id) => if id in r.entities then Schedule(r, id) else r
    case ScheduleForDeletion(id) => Schedule(r, id)
    case DeleteEntities => DeleteAll(r, r.toDelete).(toDelete := [])
  }

  function Run(r: Registry, events: seq<Event>): Registry
    decreases |events|
  {
    if events == [] then r else Step(Run(r, events[..|events| - 1]), events[|events| - 1])
  }

  // ----- the invariant

  // No two entities share an id, and no id in use is waiting to be reused.
  predicate Unique(r: Registry) {
    && r.counter < TWO_16
    && (forall a, b :: a in r.entities && b in r.entities && a != b && r.entities[a] != 0
         ==> r.entities[a] != r.entities[b])
    && (forall a :: a in r.entities ==> r.entities[a] !in r.lost)
    && 0 !in r.lost && Distinct(r.lost)
  }

  // Only ids up to the counter are in use or waiting.
  predicate InRange(r: Registry) {
    (forall a :: a in r.entities ==> r.entities[a] <= r.counter) && (forall n :: n in r.lost ==> n <= r.counter)
  }

  // Every id given out so far is in use or waiting to be reused.
  predicate NoneForgotten(r: Registry) {
    forall n :: 1 <= n <= r.counter ==> (exists a :: a in r.entities && r.entities[a] == n) || n in r.lost
  }

  predicate Tight(r: Registry) {
    Unique(r) && InRange(r) && NoneForgotten(r)
  }

  // ----- when a step keeps it

  predicate NeedsId(r: Registry, e: Event) {
    e.Construct? && e.id in r.entities && r.entities[e.id] == 0
  }

  // The counter arrives at an id that is in use.
  predicate Collides(r: Registry, e: Event) {
    NeedsId(r, e) && r.lost == [] && NextId(r) != 0 && exists a :: a in r.entities && r.entities[a] == NextId(r)
  }

  // The counter starts over while ids are in use.
  predicate StartsOver(r: Registry, e: Event) {
    NeedsId(r, e) && r.lost == [] && r.counter == TWO_16 - 1 && exists a :: a in r.entities && r.entities[a] != 0
  }

  // A new entity takes the place of one that has an id, which nobody gives back.
  predicate Overwrites(r: Registry, e: Event) {
    e.Create? && e.id in r.entities && r.entities[e.id] != 0
  }

  lemma ReuseKeepsUnique(r: Registry, id: ObjectId)
    requires Unique(r) && NeedsId(r, Construct(id)) && r.lost != []
    ensures Unique(ConstructEntity(r, id))
  {
    var n := |r.lost| - 1;
    assert r.lost[n] !in r.lost[..n];
    assert forall a :: a in r.entities ==> r.entities[a] != r.lost[n];
  }

  lemma ConstructKeepsUnique(r: Registry, id: ObjectId)
    requires Unique(r)
    ensures Unique(ConstructEntity(r, id)) <==> !Collides(r, Construct(id))
  {
    if NeedsId(r, Construct(id)) && r.lost != [] {
      ReuseKeepsUnique(r, id);
    } else if Collides(r, Construct(id)) {
      var a :| a in r.entities && r.entities[a] == NextId(r);
      var d := ConstructEntity(r, id);
      assert a != id && d.entities[a] == d.entities[id];
    }
  }

  lemma ConstructKeepsInRange(r: Registry, id: ObjectId)
    requires Tight(r)
    ensures Unique(ConstructEntity(r, id)) && InRange(ConstructEntity(r, id)) <==> !StartsOver(r, Construct(id))
  {
    ConstructKeepsUnique(r, id);
    var d := ConstructEntity(r, id);
    if StartsOver(r, Construct(id)) {
      var a :| a in r.entities && r.entities[a] != 0;
      assert a != id && d.entities[a] == r.entities[a] && d.counter == 0;
    } else if NeedsId(r, Construct(id)) && r.lost != [] {
      assert r.lost[|r.lost| - 1] in r.lost && forall n :: n in d.lost ==> n in r.lost;
    }
  }

  lemma ConstructKeepsNoneForgotten(r: Registry, id: ObjectId)
    requires Tight(r) && !StartsOver(r, Construct(id))
    ensures NoneForgotten(ConstructEntity(r, id))
  {
    if NeedsId(r, Construct(id)) {
      var d := ConstructEntity(r, id);
      if r.lost == [] && r.counter == TWO_16 - 1 {
        assert d.counter == 0;
      } else {
        forall n | 1 <= n <= d.counter
          ensures (exists a :: a in d.entities && d.entities[a] == n) || n in d.lost
        {
          if n == NextId(r) {
            assert d.entities[id] == n;
          } else if n in r.lost {
            var k :| 0 <= k < |r.lost| && r.lost[k] == n;
            assert d.lost[k] == n;
          } else {
            var a :| a in r.entities && r.entities[a] == n;
            assert d.entities[a] == n;
          }
        }
      }
    }
  }

  lemma DeleteOneKeepsUnique(r: Registry, id: ObjectId)
    requires Unique(r)
    ensures Unique(DeleteOne(r, id))
  {
    var d := DeleteOne(r, id);
    if d.lost != r.lost {
      assert r.entities[id] !in r.lost;
    }
  }

  lemma DeleteOneKeepsTight(r: Registry, id: ObjectId)
    requires Tight(r)
    ensures Tight(DeleteOne(r, id))
  {
    var d := DeleteOne(r, id);
    forall n | 1 <= n <= d.counter ensures (exists a :: a in d.entities && d.entities[a] == n) || n in d.lost {
      if n !in r.lost {
        var a :| a in r.entities && r.entities[a] == n;
        if a == id {
          assert d.lost[|d.lost| - 1] == n;
        } else {
          assert d.entities[a] == n;
        }
      }
    }
  }

  lemma {:induction false} DeleteAllKeeps(r: Registry, ids: seq<ObjectId>)
    requires Unique(r)
    ensures Unique(DeleteAll(r, ids)) && (Tight(r) ==> Tight(DeleteAll(r, ids)))
    decreases |ids|
  {
    if ids != [] {
      var before := DeleteAll(r, ids[..|ids| - 1]);
      DeleteAllKeeps(r, ids[..|ids| - 1]);
      DeleteOneKeepsUnique(before, ids[|ids| - 1]);
      if Tight(r) {
        DeleteOneKeepsTight(before, ids[|ids| - 1]);
      }
    }
  }

  // Ids stay unique, through starting over and everything else, until the counter arrives at one in use.
  lemma StepKeepsUnique(r: Registry, e: Event)
    requires Unique(r)
    ensures Unique(Step(r, e)) <==> !Collides(r, e)
  {
    match e
    case Create(_) =>
    case Construct(id) => ConstructKeepsUnique(r, id);
    case Destroy(_) =>
    case ScheduleForDeletion(_) =>
    case DeleteEntities => DeleteAllKeeps(r, r.toDelete);
  }

  lemma CreateForgets(r: Registry, id: ObjectId)
    requires Tight(r)
    ensures Tight(Step(r, Create(id))) <==> !Overwrites(r, Create(id))
  {
    var d := Step(r, Create(id));
    if Overwrites(r, Create(id)) {
      var n := r.entities[id];
      assert 1 <= n <= d.counter && n !in d.lost;
      assert forall a :: a in d.entities ==> d.entities[a] != n;
    } else {
      forall n | 1 <= n <= d.counter ensures (exists a :: a in d.entities && d.entities[a] == n) || n in d.lost {
        if n !in r.lost {
          var a :| a in r.entities && r.entities[a] == n;
          assert d.entities[a] == n;
        }
      }
    }
  }

  // The ids in use and the free ones are exactly those up to the counter for as long as it does not start over and
  // no entity with an id is replaced under its object id.
  lemma StepKeepsTight(r: Registry, e: Event)
    requires Tight(r)
    ensures Tight(Step(r, e)) <==> !StartsOver(r, e) && !Overwrites(r, e)
  {
    StepKeepsUnique(r, e);
    match e
    case Create(id) => CreateForgets(r, id);
    case Construct(id) =>
      ConstructKeepsInRange(r, id);
      if !StartsOver(r, e) {
        ConstructKeepsNoneForgotten(r, id);
      }
    case Destroy(_) =>
    case ScheduleForDeletion(_) =>
    case DeleteEntities => DeleteAllKeeps(r, r.toDelete);
  }

  // Once all ids are in use, the two entities constructed next get no id and an id that is already taken.
  lemma StartingOverCollides(r: Registry, a: ObjectId, b: ObjectId) returns (other: ObjectId)
    requires Tight(r) && r.lost == [] && r.counter == TWO_16 - 1
    requires a in r.entities && b in r.entities && a != b && r.entities[a] == r.entities[b] == 0
    ensures var s := ConstructEntity(ConstructEntity(r, a), b);
      s.entities[a] == 0 && s.entities[b] == 1 && other in s.entities && other != b && s.entities[other] == 1
  {
    assert (exists c :: c in r.entities && r.entities[c] == 1) || 1 in r.lost;
    other :| other in r.entities && r.entities[other] == 1;
  }

  // ----- what deletion does

  // The ids that the listed entities have, each once, in the order of the list.
  function IdsOf(entities: map<ObjectId, nat>, ids: seq<ObjectId>): (given: seq<nat>)
    decreases |ids|
  {
    if ids == [] then []
    else
      var before, id := ids[..|ids| - 1], ids[|ids| - 1];
      IdsOf(entities, before)
        + if id in entities && entities[id] != 0 && id !in before then [entities[id]] else []
  }

  // The entities that are not listed.
  function Spared(entities: map<ObjectId, nat>, ids: seq<ObjectId>): (rest: map<ObjectId, nat>)
    ensures forall a :: a in rest <==> a in entities && a !in ids
    ensures forall a :: a in rest ==> rest[a] == entities[a]
  {
    map a | a in entities && a !in ids :: entities[a]
  }

  lemma {:induction false} DeleteAllMeans(r: Registry, ids: seq<ObjectId>)
    ensures DeleteAll(r, ids)
         == r.(entities := Spared(r.entities, ids), lost := r.lost + IdsOf(r.entities, ids))
    decreases |ids|
  {
    if ids == [] {
      assert Spared(r.entities, ids) == r.entities;
    } else {
      var before, id := ids[..|ids| - 1], ids[|ids| - 1];
      DeleteAllMeans(r, before);
      assert ids == before + [id];
      assert Spared(r.entities, before) - {id} == Spared(r.entities, ids);
    }
  }

  // Exactly the listed entities are gone, the others have the ids they had, and the ids of those that are gone are
  // given back in the order of the list, which is empty then.
  lemma DeletionMeans(r: Registry)
    ensures Step(r, DeleteEntities)
         == Registry(Spared(r.entities, r.toDelete), r.counter, r.lost + IdsOf(r.entities, r.toDelete), [])
  {
    DeleteAllMeans(r, r.toDelete);
  }

  // An entity that is destroyed, or just listed, is gone after the next deletion.
  lemma DestroyedIsDeleted(r: Registry, e: Event)
    requires e.Destroy? || e.ScheduleForDeletion?
    ensures e.id !in Step(Step(r, e), DeleteEntities).entities
  {
    var listed := Step(r, e);
    DeletionMeans(listed);
    ListingMeans(r, e);
  }

  // Listing changes nothing else, and an entity that is not registered cannot be destroyed.
  lemma ListingMeans(r: Registry, e: Event)
    requires e.Destroy? || e.ScheduleForDeletion?
    ensures var r' := Step(r, e);
      && r' == r.(toDelete := r'.toDelete)
      && (forall a :: a in r'.toDelete <==>
           a in r.toDelete || (a == e.id && (e.ScheduleForDeletion? || e.id in r.entities)))
      && (Distinct(r.toDelete) ==> Distinct(r'.toDelete))
  {
  }

  // The id of the entity that was deleted last is the next one to be used.
  lemma LastGivenBackIsNext(r: Registry, a: ObjectId, b: ObjectId)
    requires a in r.entities && r.entities[a] != 0 && a !in r.toDelete
    requires b in r.entities && r.entities[b] == 0 && b !in r.toDelete
    ensures var s := Step(Step(Step(r, Destroy(a)), DeleteEntities), Construct(b));
      b in s.entities && s.entities[b] == r.entities[a] && s.lost == r.lost + IdsOf(r.entities, r.toDelete)
  {
    var listed := Step(r, Destroy(a));
    assert listed.toDelete[..|r.toDelete|] == r.toDelete && listed.toDelete[|r.toDelete|] == a;
    DeletionMeans(listed);
    var deleted := Step(listed, DeleteEntities);
    var n := |deleted.lost| - 1;
    assert deleted.lost[..n] == r.lost + IdsOf(r.entities, r.toDelete) && deleted.lost[n] == r.entities[a];
  }

  // With nothing given back the counter supplies the next id; an entity that has one keeps it.
  lemma ConstructionMeans(r: Registry, id: ObjectId)
    requires id in r.entities
    ensures var s := Step(r, Construct(id));
      && (r.entities[id] != 0 ==> s == r)
      && (r.entities[id] == 0 && r.lost == [] ==>
           s.entities == r.entities[id := (r.counter + 1) % TWO_16] && s.lost == [] && s.toDelete == r.toDelete
           && s.counter == (r.counter + 1) % TWO_16)
      && (r.entities[id] == 0 && r.lost != [] ==>
           s.counter == r.counter && s.lost + [s.entities[id]] == r.lost && s.toDelete == r.toDelete
           && s.entities == r.entities[id := s.entities[id]])
  {
  }

  // ----- every run

  predicate NeverCollides(events: seq<Event>) {
    forall k :: 0 <= k < |events| ==> !Collides(Run(EMPTY, events[..k]), events[k])
  }

  lemma {:induction false} RunKeepsUnique(events: seq<Event>)
    requires NeverCollides(events)
    ensures Unique(Run(EMPTY, events))
    decreases |events|
  {
    if events != [] {
      var n := |events| - 1;
      forall k | 0 <= k < n ensures !Collides(Run(EMPTY, events[..n][..k]), events[..n][k]) {
        assert events[..n][..k] == events[..k];
      }
      RunKeepsUnique(events[..n]);
      StepKeepsUnique(Run(EMPTY, events[..n]), events[n]);
    }
  }

  // ----- a run in which the counter starts over

  // Entities 1 to n, each with its own number for an id.
  function FirstIds(n: nat): (m: map<ObjectId, nat>)
    requires n < TWO_16
    ensures forall a :: a in m <==> 1 <= a <= n
    ensures forall a :: a in m ==> m[a] == a
  {
    if n == 0 then map[] else FirstIds(n - 1)[n := n]
  }

  lemma RunNext(events: seq<Event>, e: Event)
    ensures Run(EMPTY, events + [e]) == Step(Run(EMPTY, events), e)
  {
    assert (events + [e])[..|events|] == events;
  }

  lemma {:induction false} IdsRunOut(n: nat) returns (events: seq<Event>)
    requires n < TWO_16
    ensures Run(EMPTY, events) == Registry(FirstIds(n), n, [], [])
  {
    if n == 0 {
      events := [];
    } else {
      var before := IdsRunOut(n - 1);
      RunNext(before, Create(n));
      RunNext(before + [Create(n)], Construct(n));
      events := before + [Create(n)] + [Construct(n)];
      OneMoreInUse(n);
    }
  }

  lemma OneMoreInUse(n: nat)
    requires 1 <= n < TWO_16
    ensures Step(Step(Registry(FirstIds(n - 1), n - 1, [], []), Create(n)), Construct(n))
         == Registry(FirstIds(n), n, [], [])
  {
    var created := Registry(FirstIds(n - 1)[n := 0], n - 1, [], []);
    assert NextId(created) == n;
    assert FirstIds(n - 1)[n := 0][n := n] == FirstIds(n);
  }

  // Two entities more than there are ids: the last one shares the id of the first.
  lemma LastSharesIdOfFirst(n: nat) returns (events: seq<Event>)
    requires n == TWO_16 - 1
    ensures var r := Run(EMPTY, events);
      1 in r.entities && n + 2 in r.entities && r.entities[1] == r.entities[n + 2] == 1
  {
    var before := IdsRunOut(n);
    RunNext(before, Create(n + 1));
    RunNext(before + [Create(n + 1)], Create(n + 2));
    RunNext(before + [Create(n + 1)] + [Create(n + 2)], Construct(n + 1));
    RunNext(before + [Create(n + 1)] + [Create(n + 2)] + [Construct(n + 1)], Construct(n + 2));
    events := before + [Create(n + 1)] + [Create(n + 2)] + [Construct(n + 1)] + [Construct(n + 2)];
  }

  // At the end of any run, destroying an entity and deleting what is listed leaves it unregistered and nothing listed.
  lemma DestroyedIsGone(events: seq<Event>, id: ObjectId)
    ensures var r := Run(EMPTY, events + [Destroy(id)] + [DeleteEntities]);
      id !in r.entities && r.toDelete == []
  {
    RunNext(events, Destroy(id));
    RunNext(events + [Destroy(id)], DeleteEntities);
    DestroyedIsDeleted(Run(EMPTY, events), Destroy(id));
  }

  // No entity is replaced while it has an id, and the counter does not start over.
  predicate StaysInBounds(events: seq<Event>) {
    forall k :: 0 <= k < |events| ==>
      var before := Run(EMPTY, events[..k]);
      !StartsOver(before, events[k]) && !Overwrites(before, events[k])
  }

  lemma {:induction false} RunKeepsTight(events: seq<Event>)
    requires StaysInBounds(events)
    ensures Tight(Run(EMPTY, events))
    decreases |events|
  {
    if events != [] {
      var n := |events| - 1;
      forall k | 0 <= k < n
        ensures var before := Run(EMPTY, events[..n][..k]);
          !StartsOver(before, events[..n][k]) && !Overwrites(before, events[..n][k])
      {
        assert events[..n][..k] == events[..k];
      }
      RunKeepsTight(events[..n]);
      StepKeepsTight(Run(EMPTY, events[..n]), events[n]);
    }
  }

  // ----- the object

  class Entity {
    const objectId: ObjectId
    var networkId: nat

    constructor (objectId: ObjectId)
      ensures this.objectId == objectId && networkId == 0
    {
      this.objectId, networkId := objectId, 0;
    }
  }

  class EntityManager {
    var entities: map<ObjectId, Entity>
    var networkIdCounter: nat
    var lostNetworkIds: seq<nat>
    var entitiesToDelete: seq<ObjectId>

    constructor ()
      ensures Valid() && State() == EMPTY
    {
      entities, networkIdCounter, lostNetworkIds, entitiesToDelete := map[], 0, [], [];
    }

    ghost predicate Valid()
      reads this
    {
      && networkIdCounter < TWO_16
      && forall id, other :: id in entities && other in entities && id != other ==> entities[id] != entities[other]
    }

    ghost function State(): Registry
      reads this, entities.Values
    {
      Registry(map id | id in entities :: entities[id].networkId, networkIdCounter, lostNetworkIds, entitiesToDelete)
    }

    method CreateEntity(id: ObjectId) returns (entity: Entity)
      requires Valid()
      modifies this`entities
      ensures Valid() && State() == Step(old(State()), Create(id))
    {
      entity := new Entity(id);
      entities := entities[id := entity];
      assert State().entities == old(State().entities)[id := 0];
    }

    // The part of construction that hands out an id.
    method ConstructEntity(id: ObjectId)
      requires Valid()
      modifies this`networkIdCounter, this`lostNetworkIds, entities.Values
      ensures Valid() && State() == Step(old(State()), Construct(id))
    {
      if id !in entities {
        return;
      }
      var entity := entities[id];
      if entity.networkId == 0 {
        var networkId;
        if |lostNetworkIds| > 0 {
          networkId := lostNetworkIds[|lostNetworkIds| - 1];
          lostNetworkIds := lostNetworkIds[..|lostNetworkIds| - 1];
        } else {
          networkIdCounter := (networkIdCounter + 1) % TWO_16;
          networkId := networkIdCounter;
        }
        entity.networkId := networkId;
        assert State().entities == old(State().entities)[id := networkId];
      }
    }

    method Schedule(id: ObjectId)
      requires Valid()
      modifies this`entitiesToDelete
      ensures Valid() && State() == Step(old(State()), ScheduleForDeletion(id))
    {
      if id !in entitiesToDelete {
        entitiesToDelete := entitiesToDelete + [id];
      }
    }

    method DestroyEntity(id: ObjectId)
      requires Valid()
      modifies this`entitiesToDelete
      ensures Valid() && State() == Step(old(State()), Destroy(id))
    {
      if id !in entities || id in entitiesToDelete {
        return;
      }
      Schedule(id);
    }

    method DeleteScheduled()
      requires Valid()
      modifies this
      ensures Valid() && State() == Step(old(State()), Event.DeleteEntities)
    {
      ghost var r := State();
      for i := 0 to |entitiesToDelete|
        invariant Valid() && entitiesToDelete == r.toDelete && State() == DeleteAll(r, r.toDelete[..i])
      {
        var toDelete := entitiesToDelete[i];
        DeleteAllNext(r, r.toDelete, i);
        EraseOne(toDelete);
      }
      assert r.toDelete[..|entitiesToDelete|] == r.toDelete;
      entitiesToDelete := [];
    }

    method EraseOne(toDelete: ObjectId)
      requires Valid()
      modifies this`entities, this`lostNetworkIds
      ensures Valid() && State() == DeleteOne(old(State()), toDelete)
    {
      if toDelete in entities {
        var networkIdToErase := entities[toDelete].networkId;
        if networkIdToErase != 0 {
          lostNetworkIds := lostNetworkIds + [networkIdToErase];
        }
      }
      entities := entities - {toDelete};
      assert State().entities == old(State().entities) - {toDelete};
    }
  }

  lemma DeleteAllNext(r: Registry, ids: seq<ObjectId>, i: nat)
    requires i < |ids|
    ensures DeleteAll(r, ids[..i + 1]) == DeleteOne(DeleteAll(r, ids[..i]), ids[i])
  {
    assert ids[..i + 1][..i] == ids[..i];
  }
}
