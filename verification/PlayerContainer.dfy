/**
  The chat server's player container and team packet handlers as objects that are updated in place
  (dChatServer/PlayerContainer.h, dChatServer/PlayerContainer.cpp, dChatServer/ChatPacketHandler.cpp).

  Every method is proved to take the abstract state `State()` where the functions of `Teams` say.
 */
module PlayerContainer {
  import opened Basics
  import opened Teams

  class TeamData {
    const teamId: Id
    var leaderId: Id
    var memberIds: seq<Id>
    var lootFlag: int
    var isLocal: bool
    var zoneId: Zone

    constructor (teamId: Id, leaderId: Id, lootFlag: int, isLocal: bool)
      ensures Value() == Team(teamId, leaderId, [], lootFlag, isLocal, Zone(0, 0))
    {
      this.teamId, this.leaderId, this.lootFlag, this.isLocal := teamId, leaderId, lootFlag, isLocal;
      memberIds, zoneId := [], Zone(0, 0);
    }

    ghost function Value(): Team
      reads this
    {
      Team(teamId, leaderId, memberIds, lootFlag, isLocal, zoneId)
    }
  }

  lemma Erased<T>(s: seq<T>, k: nat)
    requires k < |s|
    ensures var rest := s[..k] + s[k + 1..];
      && |rest| == |s| - 1
      && (k + 1 < |s| ==> rest[|rest| - 1] == s[|s| - 1])
  {
  }

  function Strike(c: Chat, k: nat, player: Id): Chat
    requires k < |c.teams|
  {
    var team := c.teams[k].(members := Without(c.teams[k].members, player));
    c.(teams := c.teams[k := team], sent := c.sent + [Announcement(team)])
  }

  lemma RemovalInSteps(c: Chat, k: nat, player: Id)
    requires k < |c.teams| && player in c.teams[k].members
    ensures var d := Strike(c, k, player);
      Teams.RemoveMember(c, k, player) ==
        if |d.teams[k].members| <= 1 then Disband(d, k)
        else if player == d.teams[k].leader then Promote(d, k, d.teams[k].members[0])
        else d
  {
    var d, left := Strike(c, k, player), AfterLeaving(c.teams[k], player);
    if left == [] {
      assert d.teams[..k] + d.teams[k + 1..] == c.teams[..k] + left + c.teams[k + 1..];
      assert Teams.RemoveMember(c, k, player).sent == Disband(d, k).sent;
    } else {
      assert c.teams[..k] + left + c.teams[k + 1..] == c.teams[k := left[0]];
      assert LeaveBroadcasts(c.teams[k], player) == [Announcement(left[0])];
    }
  }

  lemma GatherNext(c: Chat, before: seq<Id>, member: Id)
    ensures Gather(c, before + [member]) == GatherOne(Gather(c, before), before == [], member)
  {
    assert (before + [member])[..|before|] == before;
  }

  lemma LastSurvives(c: Chat, player: Id)
    requires c.teams != [] && player !in c.teams[|c.teams| - 1].members
    ensures var d := LeaveOldTeam(c, player);
      d.teams != [] && d.teams[|d.teams| - 1] == c.teams[|c.teams| - 1]
    ensures FindTeam(c.teams, player) != |c.teams| - 1
  {
  }

  lemma TakeNext(members: seq<Id>, i: nat, before: seq<Id>)
    requires Distinct(members) && i < |members| && before == members[..i]
    ensures members[i] !in before && members[..i + 1] == before + [members[i]]
  {
  }

  class PlayerContainer {
    const defaultLoot: int
    var teams: seq<TeamData>
    var teamIdCounter: nat
    var players: map<Id, Zone>
    var sent: seq<Broadcast>
    // Every team there has been.
    ghost var Repr: set<TeamData>

    constructor (defaultLoot: int)
      ensures Valid() && Repr == {} && State() == Initial(defaultLoot)
    {
      this.defaultLoot, teams, teamIdCounter, players, sent := defaultLoot, [], 0, map[], [];
      Repr := {};
    }

    ghost predicate Valid()
      reads this
    {
      && (forall i :: 0 <= i < |teams| ==> teams[i] in Repr)
      && (forall i, j :: 0 <= i < j < |teams| ==> teams[i] != teams[j])
    }

    ghost function Values(): (v: seq<Team>)
      reads this, teams
      ensures |v| == |teams| && forall k {:trigger v[k]} :: 0 <= k < |v| ==> v[k] == teams[k].Value()
    {
      seq(|teams|, k requires 0 <= k < |teams| reads this, teams => teams[k].Value())
    }

    ghost function State(): Chat
      reads this, teams
    {
      Chat(Values(), teamIdCounter, players, sent, defaultLoot)
    }

    // ----- the container

    method GetTeam(player: Id) returns (team: TeamData?, ghost k: nat)
      ensures k == FindTeam(Values(), player)
      ensures if k < |teams| then team == teams[k] else team == null
    {
      for i := 0 to |teams|
        invariant forall j :: 0 <= j < i ==> player !in Values()[j].members
      {
        assert teams[i].Value() == Values()[i];
        if player in teams[i].memberIds {
          return teams[i], i;
        }
      }
      return null, |teams|;
    }

    method UpdateTeamsOnWorld(team: TeamData, deleteTeam: bool)
      modifies this`sent
      ensures sent == old(sent) + [if deleteTeam then Delete(team.teamId) else Announcement(team.Value())]
    {
      if deleteTeam {
        sent := sent + [Delete(team.teamId)];
      } else {
        sent := sent + [Update(team.teamId, team.lootFlag, team.memberIds)];
      }
    }

    method AddMember(team: TeamData, player: Id, ghost k: nat)
      requires Valid() && k < |teams| && teams[k] == team
      modifies this`sent, team
      ensures State() == Teams.AddMember(old(State()), k, player)
    {
      if |team.memberIds| >= MAX_MEMBERS {
        return;
      }
      if player in team.memberIds {
        return;
      }
      team.memberIds := team.memberIds + [player];
      assert Values() == old(Values())[k := team.Value()];
      if team.leaderId !in players || player !in players {
        return;
      }
      UpdateTeamsOnWorld(team, false);
      assert Values() == old(Values())[k := team.Value()];
    }

    method CreateTeam(leader: Id, isLocal: bool) returns (team: TeamData)
      requires Valid()
      modifies this`teams, this`teamIdCounter, this`sent, this`Repr
      ensures Valid() && fresh(team) && teams == old(teams) + [team] && Repr == old(Repr) + {team}
      ensures State() == Teams.CreateTeam(old(State()), leader, isLocal)
    {
      teamIdCounter := teamIdCounter + 1;
      team := new TeamData(teamIdCounter, leader, defaultLoot, isLocal);
      teams := teams + [team];
      Repr := Repr + {team};
      assert Values() == old(Values()) + [team.Value()];
      AddMember(team, leader, |teams| - 1);
    }

    method PromoteMember(team: TeamData, newLeader: Id, ghost k: nat)
      requires Valid() && k < |teams| && teams[k] == team
      modifies team`leaderId
      ensures State() == Promote(old(State()), k, newLeader)
    {
      team.leaderId := newLeader;
      assert Values() == old(Values())[k := team.Value()];
    }

    method DisbandTeam(team: TeamData, ghost k: nat)
      requires Valid() && k < |teams| && teams[k] == team
      modifies this`teams, this`sent
      ensures Valid() && teams == old(teams)[..k] + old(teams)[k + 1..]
      ensures State() == Disband(old(State()), k)
    {
      var index := 0;
      while teams[index] != team
        invariant 0 <= index <= k
        decreases k - index
      {
        index := index + 1;
      }
      UpdateTeamsOnWorld(team, true);
      teams := teams[..index] + teams[index + 1..];
      assert Values() == old(Values())[..k] + old(Values())[k + 1..];
    }

    // Takes a member out and tells the worlds.
    method StrikeMember(team: TeamData, player: Id, ghost k: nat)
      requires Valid() && k < |teams| && teams[k] == team
      modifies this`sent, team`memberIds
      ensures State() == Strike(old(State()), k, player)
    {
      team.memberIds := Without(team.memberIds, player);
      UpdateTeamsOnWorld(team, false);
      assert Values() == old(Values())[k := team.Value()];
    }

    method RemoveMember(team: TeamData, player: Id, ghost k: nat)
      requires Valid() && k < |teams| && teams[k] == team
      modifies this`teams, this`sent, team
      ensures Valid() && State() == Teams.RemoveMember(old(State()), k, player)
      ensures k + 1 < |old(teams)| ==> teams != [] && teams[|teams| - 1] == old(teams)[|old(teams)| - 1]
    {
      if player !in team.memberIds {
        return;
      }
      RemovalInSteps(State(), k, player);
      Erased(teams, k);
      StrikeMember(team, player, k);
      assert team.Value() == Values()[k];
      if |team.memberIds| <= 1 {
        DisbandTeam(team, k);
      } else if player == team.leaderId {
        PromoteMember(team, team.memberIds[0], k);
      }
    }

    method TeamStatusUpdate(team: TeamData, ghost k: nat)
      requires Valid() && k < |teams| && teams[k] == team
      modifies this`sent
      ensures State() == Teams.TeamStatusUpdate(old(State()), k)
    {
      if team.leaderId !in players {
        return;
      }
      UpdateTeamsOnWorld(team, false);
    }

    method AnnounceStatus(team: TeamData, ghost k: nat)
      requires Valid() && k < |teams| && teams[k] == team
      modifies this`sent
      ensures State() == Announce(Teams.TeamStatusUpdate(old(State()), k), k)
    {
      TeamStatusUpdate(team, k);
      assert team.Value() == Values()[k];
      UpdateTeamsOnWorld(team, false);
    }

    method SetLootFlag(team: TeamData, option: int, ghost k: nat)
      requires Valid() && k < |teams| && teams[k] == team
      modifies team`lootFlag
      ensures State() == SetLoot(old(State()), k, option)
    {
      team.lootFlag := option;
      assert Values() == old(Values())[k := team.Value()];
    }

    method SetZoneId(team: TeamData, zone: Zone, ghost k: nat)
      requires Valid() && k < |teams| && teams[k] == team
      modifies team`zoneId
      ensures State() == SetZone(old(State()), k, zone)
    {
      team.zoneId := zone;
      assert Values() == old(Values())[k := team.Value()];
    }

    method LeaveOld(player: Id) returns (ghost k: nat)
      requires Valid()
      modifies this`teams, this`sent, Repr
      ensures Valid() && State() == LeaveOldTeam(old(State()), player)
      ensures k == FindTeam(old(Values()), player)
      ensures k == |old(teams)| ==> teams == old(teams)
      ensures k + 1 < |old(teams)| ==> teams != [] && teams[|teams| - 1] == old(teams)[|old(teams)| - 1]
    {
      var team;
      team, k := GetTeam(player);
      if team != null {
        RemoveMember(team, player, k);
      }
    }

    method JoinLastTeam(team: TeamData, player: Id)
      requires Valid() && teams != [] && team == teams[|teams| - 1]
      modifies this`sent, team
      ensures State() == JoinLast(old(State()), player)
      ensures forall x :: x in team.memberIds ==> x in old(team.memberIds) || x == player
    {
      AddMember(team, player, |teams| - 1);
      assert team.Value() == Values()[|teams| - 1];
    }

    method FoundLastTeam(player: Id) returns (team: TeamData)
      requires Valid()
      modifies this`teams, this`teamIdCounter, this`sent, this`Repr
      ensures Valid() && State() == Teams.CreateTeam(old(State()), player, true)
      ensures fresh(team) && teams == old(teams) + [team] && Repr == old(Repr) + {team} && team.memberIds == [player]
    {
      FoundingTeam(State(), player, true);
      team := CreateTeam(player, true);
      assert team.Value() == Values()[|teams| - 1];
    }

    // The team being put together is the last one, and holds nobody who has not been listed yet.
    ghost predicate IsNewest(team: TeamData?, members: seq<Id>)
      reads this, teams, team
    {
      teams != [] && team == teams[|teams| - 1] && team != null && forall x :: x in team.memberIds ==> x in members
    }

    method LeaveForNewest(newest: TeamData, member: Id, ghost before: seq<Id>)
      requires Valid() && IsNewest(newest, before) && member !in before
      modifies this`teams, this`sent, Repr
      ensures Valid() && State() == LeaveOldTeam(old(State()), member)
      ensures IsNewest(newest, before)
    {
      assert newest.Value() == Values()[|teams| - 1];
      LastSurvives(State(), member);
      ghost var k := LeaveOld(member);
      assert newest.Value() == Values()[|teams| - 1];
    }

    method LeaveAndFound(member: Id) returns (newTeam: TeamData)
      requires Valid()
      modifies this`teams, this`teamIdCounter, this`sent, this`Repr, Repr
      ensures Valid() && State() == GatherOne(old(State()), true, member)
      ensures IsNewest(newTeam, [member]) && fresh(newTeam) && fresh(Repr - old(Repr))
    {
      ghost var k := LeaveOld(member);
      newTeam := FoundLastTeam(member);
    }

    method LeaveAndJoin(newest: TeamData, member: Id, ghost before: seq<Id>)
      requires Valid() && IsNewest(newest, before) && member !in before
      modifies this`teams, this`sent, Repr
      ensures Valid() && State() == GatherOne(old(State()), false, member)
      ensures IsNewest(newest, before + [member])
    {
      LeaveForNewest(newest, member, before);
      JoinLastTeam(newest, member);
    }

    // The players before have been taken out of their old teams and into the newest one.
    ghost predicate Gathering(newest: TeamData?, c: Chat, before: seq<Id>)
      reads this, teams, newest
    {
      && Valid() && State() == Gather(c, before)
      && (newest == null <==> before == []) && (newest != null ==> IsNewest(newest, before))
    }

    method GatherFirst(member: Id, ghost c: Chat) returns (newTeam: TeamData)
      requires Gathering(null, c, [])
      modifies this`teams, this`teamIdCounter, this`sent, this`Repr, Repr
      ensures Gathering(newTeam, c, [member]) && fresh(Repr - old(Repr)) && fresh(newTeam)
    {
      GatherNext(c, [], member);
      newTeam := LeaveAndFound(member);
      assert [] + [member] == [member];
    }

    method GatherLater(newest: TeamData, member: Id, ghost c: Chat, ghost before: seq<Id>)
      requires Gathering(newest, c, before) && member !in before
      modifies this`teams, this`sent, Repr
      ensures Gathering(newest, c, before + [member])
    {
      GatherNext(c, before, member);
      LeaveAndJoin(newest, member, before);
    }

    method GatherMembers(members: seq<Id>) returns (newTeam: TeamData?)
      requires Valid() && Distinct(members)
      modifies this`teams, this`teamIdCounter, this`sent, this`Repr, Repr
      ensures Gathering(newTeam, old(State()), members) && (newTeam != null ==> fresh(newTeam))
    {
      newTeam := null;
      ghost var c, before := State(), [];
      for i := 0 to |members|
        invariant before == members[..i] && Gathering(newTeam, c, before)
        invariant fresh(Repr - old(Repr)) && (newTeam != null ==> fresh(newTeam))
      {
        TakeNext(members, i, before);
        if newTeam == null {
          newTeam := GatherFirst(members[i], c);
        } else {
          GatherLater(newTeam, members[i], c, before);
        }
        before := before + [members[i]];
      }
      assert before == members;
    }

    method ShareLootInNewest(newTeam: TeamData)
      requires Valid() && teams != [] && newTeam == teams[|teams| - 1]
      modifies this`sent, newTeam`lootFlag
      ensures State() == ShareLoot(old(State()))
    {
      SetLootFlag(newTeam, 1, |teams| - 1);
      TeamStatusUpdate(newTeam, |teams| - 1);
    }

    // A null result stands for an empty list.
    method CreateLocalTeam(members: seq<Id>) returns (newTeam: TeamData?)
      requires Valid() && Distinct(members)
      modifies this`teams, this`teamIdCounter, this`sent, this`Repr, Repr
      ensures Valid() && (newTeam == null <==> members == [])
      ensures newTeam == null ==> State() == old(State())
      ensures newTeam != null ==> teams != [] && newTeam == teams[|teams| - 1] && fresh(newTeam)
      ensures newTeam != null ==> State() == Teams.CreateLocalTeam(old(State()), members)
    {
      if members == [] {
        return null;
      }
      newTeam := GatherMembers(members);
      ShareLootInNewest(newTeam);
    }

    // ----- packets

    method InsertPlayer(player: Id, zone: Zone)
      modifies this`players
      ensures State() == Step(old(State()), Login(player, zone))
    {
      if player != NOBODY {
        players := players[player := zone];
      }
    }

    method RemovePlayer(player: Id)
      modifies this`players
      ensures State() == Step(old(State()), Logout(player))
    {
      if player !in players {
        assert players - {player} == players;
        return;
      }
      players := players - {player};
    }

    method SettleNewest(team: TeamData, zone: Zone)
      requires Valid() && teams != [] && team == teams[|teams| - 1]
      modifies this`sent, team`zoneId
      ensures State() == SettleIn(old(State()), zone)
    {
      SetZoneId(team, zone, |teams| - 1);
      UpdateTeamsOnWorld(team, false);
    }

    method CreateTeamServer(members: seq<Id>, zone: Zone)
      requires Valid() && members != [] && Distinct(members)
      modifies this`teams, this`teamIdCounter, this`sent, this`Repr, Repr
      ensures Valid() && State() == Step(old(State()), TeamServer(members, zone))
    {
      var team := CreateLocalTeam(members);
      if team != null {
        SettleNewest(team, zone);
      }
    }

    method HandleTeamInvite(player: Id)
      requires Valid()
      modifies this`teams, this`teamIdCounter, this`sent, this`Repr
      ensures Valid() && State() == Step(old(State()), Invite(player))
    {
      if player !in players {
        return;
      }
      var team, k := GetTeam(player);
      if team == null {
        team := CreateTeam(player, false);
      }
    }

    method FindTarget(player: Id, leader: Id) returns (team: TeamData?, ghost k: nat)
      ensures k == TargetTeam(State(), player, leader)
      ensures if k < |teams| then team == teams[k] else team == null
    {
      team, k := GetTeam(leader);
      if team == null {
        team, k := GetTeam(player);
      }
    }

    method HandleTeamInviteResponse(player: Id, declined: bool, leader: Id)
      requires Valid()
      modifies this`sent, Repr
      ensures Valid() && State() == Step(old(State()), InviteResponse(player, declined, leader))
    {
      if declined {
        return;
      }
      var team, k := FindTarget(player, leader);
      if team == null {
        return;
      }
      AddMember(team, player, k);
    }

    method HandleTeamLeave(player: Id)
      requires Valid()
      modifies this`teams, this`sent, Repr
      ensures Valid() && State() == Step(old(State()), Leave(player))
    {
      var team, k := GetTeam(player);
      if team != null {
        RemoveMember(team, player, k);
      }
    }

    method HandleTeamKick(player: Id, kicked: Id)
      requires Valid()
      modifies this`teams, this`sent, Repr
      ensures Valid() && State() == Step(old(State()), Kick(player, kicked))
    {
      if kicked == NOBODY {
        return;
      }
      var team, k := GetTeam(player);
      if team != null {
        if team.leaderId != player || team.leaderId == kicked {
          return;
        }
        RemoveMember(team, kicked, k);
      }
    }

    method HandleTeamPromote(player: Id, promoted: Id)
      requires Valid()
      modifies Repr
      ensures Valid() && State() == Step(old(State()), PromoteTo(player, promoted))
    {
      if promoted !in players {
        return;
      }
      var team, k := GetTeam(player);
      if team != null {
        if team.leaderId != player {
          return;
        }
        PromoteMember(team, promoted, k);
      }
    }

    method HandleTeamLootOption(player: Id, option: int)
      requires Valid()
      modifies this`sent, Repr
      ensures Valid() && State() == Step(old(State()), LootOption(player, option))
    {
      var team, k := GetTeam(player);
      if team != null {
        if team.leaderId != player {
          return;
        }
        SetLootFlag(team, option, k);
        AnnounceStatus(team, k);
      }
    }

    method HandleTeamStatusRequest(player: Id)
      requires Valid()
      modifies this`teams, this`sent, Repr
      ensures Valid() && State() == Step(old(State()), StatusRequest(player))
    {
      var team, k := GetTeam(player);
      if team != null && player in players {
        var zone := players[player];
        if team.isLocal && zone.mapId != team.zoneId.mapId && zone.clone != team.zoneId.clone {
          RemoveMember(team, player, k);
          return;
        }
        if |team.memberIds| <= 1 && !team.isLocal {
          DisbandTeam(team, k);
          return;
        }
        AnnounceStatus(team, k);
      }
    }
  }
}
