/**
  Ghosting as objects that are updated in place (dGame/EntityManager.cpp, dGame/dComponents/GhostComponent.cpp,
  dGame/Entity.cpp).  Every method is proved to take the abstract state where the functions of `Ghosting` say.
 */
module GhostManager {
  import opened Basics
  import opened Ghosting

  class Entity {
    const objectId: ObjectId
    const lot: int
    const collectibleId: nat
    var position: Point
    var observers: Observers

    constructor (objectId: ObjectId, lot: int, collectibleId: nat, position: Point)
      ensures Value() == Candidate(objectId, position, lot, collectibleId, 0)
    {
      this.objectId, this.lot, this.collectibleId, this.position := objectId, lot, collectibleId, position;
      observers := 0;
    }

    ghost function Value(): Candidate
      reads this
    {
      Candidate(objectId, position, lot, collectibleId, observers)
    }

    // The argument is a signed byte.
    method SetObservers(value: int)
      modifies this`observers
      ensures observers == AsObservers(value)
    {
      var byte := (value + 128) % 256 - 128;
      if byte < 0 {
        byte := 0;
      }
      observers := byte;
    }
  }

  // A player with its ghost component.
  class GhostComponent {
    const playerId: ObjectId
    const hasMissions: bool
    var reference: Point
    var overridePoint: Point
    var isOverridden: bool
    var collected: set<nat>
    var observed: set<ObjectId>

    constructor (playerId: ObjectId, hasMissions: bool, reference: Point, collected: set<nat>)
      ensures Value() == Player(playerId, hasMissions, reference, Point(0.0, 0.0, 0.0), false, collected, {})
    {
      this.playerId, this.hasMissions, this.reference, this.collected := playerId, hasMissions, reference, collected;
      overridePoint, isOverridden, observed := Point(0.0, 0.0, 0.0), false, {};
    }

    ghost function Value(): Player
      reads this
    {
      Player(playerId, hasMissions, reference, overridePoint, isOverridden, collected, observed)
    }

    method GetGhostReferencePoint() returns (point: Point)
      ensures point == ReferencePoint(Value())
    {
      point := if isOverridden then overridePoint else reference;
    }

    method ObserveEntity(id: ObjectId)
      modifies this`observed
      ensures observed == old(observed) + {id}
    {
      observed := observed + {id};
    }

    method GhostEntity(id: ObjectId)
      modifies this`observed
      ensures observed == old(observed) - {id}
    {
      observed := observed - {id};
    }
  }

  function WithoutOne(candidates: seq<Candidate>, id: ObjectId): seq<Candidate> {
    var i := FindCandidate(candidates, id);
    if i == |candidates| then candidates
    else candidates[i := candidates[i].(observers := AsObservers(candidates[i].observers - 1))]
  }

  // The player is forgotten by the first candidate of each id it was shown but those left.
  predicate IsForgotten(before: seq<Candidate>, now: seq<Candidate>, p: Player, left: set<ObjectId>) {
    |now| == |before| && forall i :: 0 <= i < |before| ==>
      now[i] == if before[i].id in left then before[i] else Forget(before, i, p)
  }

  lemma {:induction false} SameIdsSameFind(a: seq<Candidate>, b: seq<Candidate>, id: ObjectId)
    requires |a| == |b| && forall i :: 0 <= i < |a| ==> a[i].id == b[i].id
    ensures FindCandidate(a, id) == FindCandidate(b, id)
  {
    if a != [] {
      SameIdsSameFind(a[1..], b[1..], id);
    }
  }

  lemma OneMoreForgotten(before: seq<Candidate>, now: seq<Candidate>, next: seq<Candidate>, p: Player,
                         left: set<ObjectId>, id: ObjectId)
    requires left <= p.observed && id in left && IsForgotten(before, now, p, left)
    requires next == WithoutOne(now, id)
    ensures IsForgotten(before, next, p, left - {id})
  {
    forall i | 0 <= i < |before| ensures now[i].id == before[i].id {
    }
    SameIdsSameFind(now, before, id);
    forall i | 0 <= i < |before|
      ensures next[i] == if before[i].id in left - {id} then before[i] else Forget(before, i, p)
    {
      assert now[i].id == before[i].id;
    }
  }

  class EntityManager {
    const minSquared: real
    const maxSquared: real
    const zone: nat
    var entitiesToGhost: seq<Entity>
    var players: seq<GhostComponent>

    constructor (minSquared: real, maxSquared: real, zone: nat)
      ensures Valid() && State() == World([], [], minSquared, maxSquared, zone)
    {
      this.minSquared, this.maxSquared, this.zone := minSquared, maxSquared, zone;
      entitiesToGhost, players := [], [];
    }

    ghost predicate Valid()
      reads this
    {
      && (forall i, j :: 0 <= i < j < |entitiesToGhost| ==> entitiesToGhost[i] != entitiesToGhost[j])
      && (forall i, j :: 0 <= i < j < |players| ==> players[i] != players[j])
    }

    ghost function Candidates(): (v: seq<Candidate>)
      reads this, entitiesToGhost
      ensures |v| == |entitiesToGhost|
      ensures forall i {:trigger v[i]} :: 0 <= i < |v| ==> v[i] == entitiesToGhost[i].Value()
    {
      seq(|entitiesToGhost|,
          i requires 0 <= i < |entitiesToGhost| reads this, entitiesToGhost => entitiesToGhost[i].Value())
    }

    ghost function Players(): (v: seq<Player>)
      reads this, players
      ensures |v| == |players| && forall k {:trigger v[k]} :: 0 <= k < |v| ==> v[k] == players[k].Value()
    {
      seq(|players|, k requires 0 <= k < |players| reads this, players => players[k].Value())
    }

    ghost function State(): World
      reads this, entitiesToGhost, players
    {
      World(Candidates(), Players(), minSquared, maxSquared, zone)
    }

    // ----- one player and one entity

    method Hide(player: GhostComponent, entity: Entity, ghost k: nat, ghost i: nat)
      requires Valid() && k < |players| && players[k] == player
      requires i < |entitiesToGhost| && entitiesToGhost[i] == entity
      modifies player`observed, entity`observers
      ensures State() == CarryOut(old(State()), k, i, Verdict.Hide)
    {
      player.GhostEntity(entity.objectId);
      entity.SetObservers(entity.observers - 1);
      assert Candidates() == old(Candidates())[i := entity.Value()];
      assert Players() == old(Players())[k := player.Value()];
    }

    method Show(player: GhostComponent, entity: Entity, ghost k: nat, ghost i: nat)
      requires Valid() && k < |players| && players[k] == player
      requires i < |entitiesToGhost| && entitiesToGhost[i] == entity
      modifies player`observed, entity`observers
      ensures State() == CarryOut(old(State()), k, i, Verdict.Show)
    {
      player.ObserveEntity(entity.objectId);
      entity.SetObservers(entity.observers + 1);
      assert Candidates() == old(Candidates())[i := entity.Value()];
      assert Players() == old(Players())[k := player.Value()];
    }

    method UpdateOne(player: GhostComponent, entity: Entity, ghost k: nat, ghost i: nat)
      requires Valid() && k < |players| && players[k] == player
      requires i < |entitiesToGhost| && entitiesToGhost[i] == entity
      modifies player`observed, entity`observers
      ensures var verdict := PlayersVerdict(old(State()), old(player.Value()), old(entity.Value()));
        State() == CarryOut(old(State()), k, i, verdict)
    {
      var id := entity.objectId;
      var isObserved := id in player.observed;
      var referencePoint := player.GetGhostReferencePoint();
      var distance := DistanceSquared(referencePoint, entity.position);
      var ghostingDistanceMax := maxSquared;
      var ghostingDistanceMin := minSquared;
      if entity.lot == AUDIO_EMITTER {
        ghostingDistanceMax := ghostingDistanceMin;
      }
      if isObserved && distance > ghostingDistanceMax && !player.isOverridden {
        Hide(player, entity, k, i);
      } else if !isObserved && ghostingDistanceMin > distance {
        var collectionId := entity.collectibleId;
        if collectionId != 0 {
          collectionId := (collectionId + zone * 256) % TWO_32;
          if collectionId in player.collected {
            return;
          }
        }
        Show(player, entity, k, i);
      }
    }

    method UpdateGhosting(player: GhostComponent, ghost k: nat)
      requires Valid() && k < |players| && players[k] == player
      modifies player`observed, entitiesToGhost
      ensures State() == Ghosting.UpdateGhosting(old(State()), k)
    {
      assert State().players[k] == player.Value();
      if !player.hasMissions {
        return;
      }
      ghost var w := State();
      for i := 0 to |entitiesToGhost|
        invariant State() == UpdateFirst(w, k, i)
      {
        assert State().players[k] == player.Value() && State().candidates[i] == entitiesToGhost[i].Value();
        UpdateOne(player, entitiesToGhost[i], k, i);
      }
    }

    method CheckOne(player: GhostComponent, entity: Entity, ghost k: nat, ghost i: nat)
      requires Valid() && k < |players| && players[k] == player
      requires i < |entitiesToGhost| && entitiesToGhost[i] == entity
      modifies player`observed, entity`observers
      ensures var verdict := EntitysVerdict(old(State()), old(player.Value()), old(entity.Value()));
        State() == CarryOut(old(State()), k, i, verdict)
    {
      var id := entity.objectId;
      var isObserved := id in player.observed;
      var entityPoint := player.GetGhostReferencePoint();
      var distance := DistanceSquared(entity.position, entityPoint);
      if isObserved && distance > maxSquared {
        Hide(player, entity, k, i);
      } else if !isObserved && minSquared > distance {
        Show(player, entity, k, i);
      }
    }

    method CheckGhosting(entity: Entity, ghost i: nat)
      requires Valid() && i < |entitiesToGhost| && entitiesToGhost[i] == entity
      modifies players, entity`observers
      ensures State() == Ghosting.CheckGhosting(old(State()), i)
    {
      ghost var w := State();
      for k := 0 to |players|
        invariant State() == CheckFirst(w, i, k)
      {
        assert State().players[k] == players[k].Value() && State().candidates[i] == entity.Value();
        CheckOne(players[k], entity, k, i);
      }
    }

    // ----- coming and going

    method GetGhostCandidate(id: ObjectId) returns (entity: Entity?, ghost i: nat)
      ensures i == FindCandidate(Candidates(), id)
      ensures if i < |entitiesToGhost| then entity == entitiesToGhost[i] else entity == null
    {
      for j := 0 to |entitiesToGhost|
        invariant forall m :: 0 <= m < j ==> Candidates()[m].id != id
      {
        assert Candidates()[j] == entitiesToGhost[j].Value();
        if entitiesToGhost[j].objectId == id {
          return entitiesToGhost[j], j;
        }
      }
      return null, |entitiesToGhost|;
    }

    // The part of construction that makes an entity a candidate, which the entity's own check follows.  What counts
    // is the entity itself and not its id.
    method AddCandidate(entity: Entity)
      requires Valid() && (entity !in entitiesToGhost ==> entity.observers == 0)
      modifies this`entitiesToGhost
      ensures Valid()
      ensures State() == if entity in old(entitiesToGhost) then old(State())
                         else Step(old(State()), CandidateComes(entity.Value()))
    {
      if entity !in entitiesToGhost {
        entitiesToGhost := entitiesToGhost + [entity];
        assert Candidates() == old(Candidates()) + [entity.Value()];
      }
    }

    method RemoveCandidate(entity: Entity, ghost i: nat)
      requires Valid() && i < |entitiesToGhost| && entitiesToGhost[i] == entity
      modifies this`entitiesToGhost
      ensures Valid() && State() == Step(old(State()), CandidateGoes(i))
    {
      var index := 0;
      while entitiesToGhost[index] != entity
        invariant 0 <= index <= i
        decreases i - index
      {
        index := index + 1;
      }
      entitiesToGhost := entitiesToGhost[..index] + entitiesToGhost[index + 1..];
      assert Candidates() == old(Candidates())[..i] + old(Candidates())[i + 1..];
    }

    method AddPlayer(player: GhostComponent)
      requires Valid() && player !in players && player.observed == {}
      modifies this`players
      ensures Valid() && State() == Step(old(State()), PlayerComes(player.Value()))
    {
      players := players + [player];
      assert Players() == old(Players()) + [player.Value()];
    }

    // The destruction of a player's ghost component.
    method RemovePlayer(player: GhostComponent, ghost k: nat)
      requires Valid() && k < |players| && players[k] == player
      modifies this`players, entitiesToGhost
      ensures Valid() && State() == Ghosting.RemovePlayer(old(State()), k)
    {
      ForgetAll(player, k);
      assert Candidates() == Ghosting.RemovePlayer(old(State()), k).candidates;
      var index := 0;
      while players[index] != player
        invariant 0 <= index <= k
        decreases k - index
      {
        index := index + 1;
      }
      players := players[..index] + players[index + 1..];
      assert Players() == old(Players())[..k] + old(Players())[k + 1..];
    }

    method ForgetAll(player: GhostComponent, ghost k: nat)
      requires Valid() && k < |players| && players[k] == player
      modifies entitiesToGhost`observers
      ensures IsForgotten(old(Candidates()), Candidates(), player.Value(), {})
    {
      ghost var before := Candidates();
      var left := player.observed;
      while left != {}
        invariant left <= player.observed && IsForgotten(before, Candidates(), player.Value(), left)
      {
        var id :| id in left;
        ghost var now := Candidates();
        ForgetOne(id);
        OneMoreForgotten(before, now, Candidates(), player.Value(), left, id);
        left := left - {id};
      }
    }

    method ForgetOne(id: ObjectId)
      requires Valid()
      modifies entitiesToGhost`observers
      ensures Candidates() == WithoutOne(old(Candidates()), id)
    {
      var entity, i := GetGhostCandidate(id);
      if entity != null {
        assert Candidates()[i] == entity.Value();
        entity.SetObservers(entity.observers - 1);
        assert Candidates() == old(Candidates())[i := entity.Value()];
      }
    }
  }
}
