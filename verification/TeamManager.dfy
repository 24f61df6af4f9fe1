/**
  A world's copy of the teams as an object (dGame/TeamManager.cpp), and the turns in which a team's members
  own the loot.
 */
module TeamManager {
  import opened Teams
  import opened TeamReplica

  // ----- turns

  function NextRound(round: nat, size: nat): (next: nat)
    requires size > 0
    ensures next < size
  {
    if round + 1 >= size then 0 else round + 1
  }

  // The owners of the next n pieces of loot.
  function Owners(members: seq<Id>, round: nat, n: nat): (owners: seq<Id>)
    requires members != []
    ensures |owners| == n
    decreases n, round
  {
    if n == 0 then []
    else
      var next := NextRound(round, |members|);
      [members[next]] + Owners(members, next, n - 1)
  }

  lemma {:induction false} OwnersToTheEnd(members: seq<Id>, round: nat, n: nat)
    requires members != [] && round + n < |members|
    ensures Owners(members, round, n) == members[round + 1..round + 1 + n]
    decreases n
  {
    if n > 0 {
      OwnersToTheEnd(members, round + 1, n - 1);
    }
  }

  lemma {:induction false} OwnersInTwoParts(members: seq<Id>, round: nat, m: nat, n: nat)
    requires members != [] && round + m < |members|
    ensures Owners(members, round, m + n) == Owners(members, round, m) + Owners(members, round + m, n)
    decreases m
  {
    if m > 0 {
      OwnersInTwoParts(members, round + 1, m - 1, n);
    }
  }

  // However long the team was when the last piece was given, as many pieces as there are members go once
  // around: every member gets one, in order, beginning with the next.
  lemma OnceAround(members: seq<Id>, round: nat)
    requires members != []
    ensures Owners(members, round, |members|)
         == members[NextRound(round, |members|)..] + members[..NextRound(round, |members|)]
  {
    var size := |members|;
    if round + 1 >= size {
      FromTheFront(members, round, size);
      assert members[..size] == members[0..] + members[..0];
    } else {
      JoinParts(members, round, size - 1 - round, round + 1);
    }
  }

  lemma JoinParts(members: seq<Id>, round: nat, m: nat, n: nat)
    requires n == round + 1 < |members| && m + n == |members|
    ensures Owners(members, round, |members|) == members[n..] + members[..n]
  {
    OwnersInTwoParts(members, round, m, n);
    OwnersToTheEnd(members, round, m);
    FromTheFront(members, |members| - 1, n);
    assert members[n..n + m] == members[n..];
  }

  // After the last member it is the first one's turn.
  lemma FromTheFront(members: seq<Id>, round: nat, n: nat)
    requires members != [] && round + 1 >= |members| && 1 <= n <= |members|
    ensures Owners(members, round, n) == members[..n]
  {
    OwnersToTheEnd(members, 0, n - 1);
    assert members[..n] == [members[0]] + members[1..n];
  }

  // ----- the object

  class LocalTeam {
    var lootOption: int
    var members: seq<Id>
    var lootRound: nat

    constructor ()
      ensures members == [] && lootRound == 0
    {
      lootOption, members, lootRound := 0, [], 0;
    }
  }

  class TeamManager {
    var teams: map<Id, LocalTeam>

    constructor ()
      ensures Valid() && View() == map[]
    {
      teams := map[];
    }

    ghost predicate Valid()
      reads this
    {
      forall i, j :: i in teams && j in teams && i != j ==> teams[i] != teams[j]
    }

    ghost function View(): World
      reads this, teams.Values
    {
      map id | id in teams :: Copy(teams[id].lootOption, teams[id].members)
    }

    method GetTeam(member: Id) returns (team: LocalTeam?)
      ensures team == null <==> forall t :: t in teams.Values ==> member !in t.members
      ensures team != null ==> team in teams.Values && member in team.members
    {
      var left := teams.Values;
      while left != {}
        invariant left <= teams.Values
        invariant forall t :: t in teams.Values && t !in left ==> member !in t.members
      {
        var t :| t in left;
        if member in t.members {
          return t;
        }
        left := left - {t};
      }
      return null;
    }

    // A newer list of members does not reset the turn.
    method UpdateTeam(teamId: Id, lootOption: int, members: seq<Id>)
      requires Valid()
      modifies this, teams.Values
      ensures Valid() && View() == Receive(old(View()), Update(teamId, lootOption, members))
      ensures forall id :: id in old(teams) ==>
        id in teams && teams[id] == old(teams[id]) && teams[id].lootRound == old(teams[id].lootRound)
      ensures teamId in teams && teamId !in old(teams) ==> teams[teamId].lootRound == 0
    {
      var team;
      if teamId !in teams {
        if |members| <= 1 {
          return;
        }
        team := new LocalTeam();
        teams := teams[teamId := team];
      } else {
        team := teams[teamId];
      }
      team.members := members;
      team.lootOption := lootOption;
      forall id | id in old(teams) && id != teamId ensures teams[id] == old(teams[id]) && teams[id] != team {
      }
      assert forall id :: id in old(teams) && id != teamId ==> View()[id] == old(View())[id];
      assert View()[teamId] == Copy(lootOption, members);
      assert View().Keys == old(View()).Keys + {teamId};
      assert View() == old(View())[teamId := Copy(lootOption, members)];
    }

    method DeleteTeam(teamId: Id)
      requires Valid()
      modifies this
      ensures Valid() && View() == Receive(old(View()), Delete(teamId))
    {
      if teamId in teams {
        teams := teams - {teamId};
      }
      assert View() == old(View()) - {teamId};
    }

    // The world's handler of the chat server's team broadcasts.
    method HandleChat(b: Broadcast)
      requires Valid()
      modifies this, teams.Values
      ensures Valid() && View() == Receive(old(View()), b)
    {
      match b
      case Delete(team) => DeleteTeam(team);
      case Update(team, lootOption, members) => UpdateTeam(team, lootOption, members);
    }

    method GetNextLootOwner(team: LocalTeam) returns (owner: Id)
      requires team.members != []
      modifies team`lootRound
      ensures team.lootRound == NextRound(old(team.lootRound), |team.members|)
      ensures [owner] == Owners(team.members, old(team.lootRound), 1)
    {
      team.lootRound := team.lootRound + 1;
      if team.lootRound >= |team.members| {
        team.lootRound := 0;
      }
      owner := team.members[team.lootRound];
      assert Owners(team.members, team.lootRound, 0) == [];
    }
  }
}
