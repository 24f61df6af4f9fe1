/**
  What every run of the chat server keeps, and exactly when it loses what it does not always keep.
 */
module TeamInvariants {
  import opened Basics
  import opened Teams

  // ----- every team is small, without repeats, and older than the teams behind it

  predicate Fits(team: Team) {
    1 <= |team.members| <= MAX_MEMBERS && Distinct(team.members)
  }

  predicate Orderly(teams: seq<Team>, counter: nat) {
    && (forall i :: 0 <= i < |teams| ==> Fits(teams[i]) && 1 <= teams[i].id <= counter)
    && (forall i, j :: 0 <= i < j < |teams| ==> teams[i].id < teams[j].id)
  }

  predicate WellFormed(c: Chat) {
    Orderly(c.teams, c.counter)
  }

  lemma DistinctCons(x: Id, s: seq<Id>)
    ensures Distinct([x] + s) <==> Distinct(s) && x !in s
  {
    var t := [x] + s;
    if Distinct(t) {
      forall i, j | 0 <= i < j < |s| ensures s[i] != s[j] {
        assert t[i + 1] != t[j + 1];
      }
      forall i | 0 <= i < |s| ensures s[i] != x {
        assert t[0] != t[i + 1];
      }
    }
  }

  lemma {:induction false} WithoutIsDistinct(s: seq<Id>, x: Id)
    requires Distinct(s)
    ensures Distinct(Without(s, x)) && x !in Without(s, x)
  {
    if s != [] {
      assert s == [s[0]] + s[1..];
      DistinctCons(s[0], s[1..]);
      if s[0] != x {
        WithoutIsDistinct(s[1..], x);
        DistinctCons(s[0], Without(s[1..], x));
      }
    }
  }

  lemma LeavingFits(team: Team, player: Id)
    requires Fits(team)
    ensures forall t :: t in AfterLeaving(team, player) ==> Fits(t) && t.id == team.id
  {
    WithoutIsDistinct(team.members, player);
  }

  lemma OrderlyReplace(teams: seq<Team>, counter: nat, i: nat, team: Team)
    requires Orderly(teams, counter) && i < |teams| && Fits(team) && team.id == teams[i].id
    ensures Orderly(teams[i := team], counter)
  {
  }

  lemma OrderlyDrop(teams: seq<Team>, counter: nat, i: nat)
    requires Orderly(teams, counter) && i < |teams|
    ensures Orderly(teams[..i] + teams[i + 1..], counter)
  {
  }

  lemma AddKeepsWellFormed(c: Chat, i: nat, player: Id)
    requires WellFormed(c) && i < |c.teams|
    ensures WellFormed(AddMember(c, i, player))
  {
    var team := c.teams[i];
    if HasRoomFor(team, player) {
      OrderlyReplace(c.teams, c.counter, i, team.(members := team.members + [player]));
    }
  }

  lemma RemoveKeepsWellFormed(c: Chat, i: nat, player: Id)
    requires WellFormed(c) && i < |c.teams|
    ensures WellFormed(RemoveMember(c, i, player))
  {
    var left := AfterLeaving(c.teams[i], player);
    LeavingFits(c.teams[i], player);
    if left == [] {
      OrderlyDrop(c.teams, c.counter, i);
      assert c.teams[..i] + left + c.teams[i + 1..] == c.teams[..i] + c.teams[i + 1..];
    } else {
      OrderlyReplace(c.teams, c.counter, i, left[0]);
      assert c.teams[..i] + left + c.teams[i + 1..] == c.teams[i := left[0]];
    }
  }

  lemma CreateKeepsWellFormed(c: Chat, leader: Id, isLocal: bool)
    requires WellFormed(c)
    ensures WellFormed(CreateTeam(c, leader, isLocal))
  {
    FoundingTeam(c, leader, isLocal);
  }

  lemma GatherOneKeepsWellFormed(c: Chat, isFirst: bool, player: Id)
    requires WellFormed(c)
    ensures WellFormed(GatherOne(c, isFirst, player))
  {
    LeaveKeepsWellFormed(c, player);
    var d := LeaveOldTeam(c, player);
    if isFirst {
      CreateKeepsWellFormed(d, player, true);
    } else if d.teams != [] {
      AddKeepsWellFormed(d, |d.teams| - 1, player);
    }
  }

  lemma {:induction false} GatherKeepsWellFormed(c: Chat, players: seq<Id>)
    requires WellFormed(c)
    ensures WellFormed(Gather(c, players))
    decreases |players|
  {
    if players != [] {
      var n := |players| - 1;
      GatherKeepsWellFormed(c, players[..n]);
      GatherOneKeepsWellFormed(Gather(c, players[..n]), n == 0, players[n]);
    }
  }

  lemma LeaveKeepsWellFormed(c: Chat, player: Id)
    requires WellFormed(c)
    ensures WellFormed(LeaveOldTeam(c, player))
  {
    var i := FindTeam(c.teams, player);
    if i < |c.teams| {
      RemoveKeepsWellFormed(c, i, player);
    }
  }

  lemma ReplacingKeepsWellFormed(c: Chat, i: nat, team: Team)
    requires WellFormed(c) && i < |c.teams| && team.id == c.teams[i].id && team.members == c.teams[i].members
    ensures Orderly(c.teams[i := team], c.counter)
  {
    OrderlyReplace(c.teams, c.counter, i, team);
  }

  lemma TeamServerKeepsWellFormed(c: Chat, players: seq<Id>, zone: Zone)
    requires WellFormed(c)
    ensures WellFormed(CreateTeamServer(c, players, zone))
  {
    GatherKeepsWellFormed(c, players);
    var d := Gather(c, players);
    if d.teams != [] {
      var last := |d.teams| - 1;
      var e := CreateLocalTeam(c, players);
      ReplacingKeepsWellFormed(d, last, d.teams[last].(loot := 1));
      ReplacingKeepsWellFormed(e, last, e.teams[last].(zone := zone));
    }
  }

  lemma StatusRequestKeepsWellFormed(c: Chat, player: Id)
    requires WellFormed(c)
    ensures WellFormed(HandleStatusRequest(c, player))
  {
    var i := FindTeam(c.teams, player);
    if i < |c.teams| {
      RemoveKeepsWellFormed(c, i, player);
      OrderlyDrop(c.teams, c.counter, i);
    }
  }

  lemma LeadersPacketKeepsWellFormed(c: Chat, e: Event)
    requires WellFormed(c) && (e.Kick? || e.PromoteTo? || e.LootOption?)
    ensures WellFormed(Step(c, e))
  {
    var i := FindTeam(c.teams, e.player);
    if i < |c.teams| {
      match e
      case Kick(_, kicked) => RemoveKeepsWellFormed(c, i, kicked);
      case PromoteTo(_, promoted) => ReplacingKeepsWellFormed(c, i, c.teams[i].(leader := promoted));
      case LootOption(_, option) => ReplacingKeepsWellFormed(c, i, c.teams[i].(loot := option));
    }
  }

  lemma StepKeepsWellFormed(c: Chat, e: Event)
    requires WellFormed(c)
    ensures WellFormed(Step(c, e))
  {
    match e
    case Login(_, _) =>
    case Logout(_) =>
    case Invite(player) => CreateKeepsWellFormed(c, player, false);
    case InviteResponse(player, _, leader) =>
      var i := TargetTeam(c, player, leader);
      if i < |c.teams| {
        AddKeepsWellFormed(c, i, player);
      }
    case Leave(player) => LeaveKeepsWellFormed(c, player);
    case StatusRequest(player) => StatusRequestKeepsWellFormed(c, player);
    case TeamServer(players, zone) => TeamServerKeepsWellFormed(c, players, zone);
    case _ => LeadersPacketKeepsWellFormed(c, e);
  }

  lemma {:induction false} RunKeepsWellFormed(c: Chat, events: seq<Event>)
    requires WellFormed(c)
    ensures WellFormed(Run(c, events))
    decreases |events|
  {
    if events != [] {
      RunKeepsWellFormed(c, events[..|events| - 1]);
      StepKeepsWellFormed(Run(c, events[..|events| - 1]), events[|events| - 1]);
    }
  }

  // ----- a player in one team only

  predicate Apart(teams: seq<Team>) {
    forall i, j, x :: 0 <= i < j < |teams| && x in teams[i].members ==> x !in teams[j].members
  }

  predicate IsInAnotherTeam(teams: seq<Team>, i: nat, player: Id) {
    exists j :: 0 <= j < |teams| && j != i && player in teams[j].members
  }

  // An accepted invitation is the one packet that can put a player in a second team.
  predicate JoinsSecondTeam(c: Chat, e: Event) {
    && e.InviteResponse? && !e.declined
    && var i := TargetTeam(c, e.player, e.leader);
      i < |c.teams| && HasRoomFor(c.teams[i], e.player) && IsInAnotherTeam(c.teams, i, e.player)
  }

  lemma ApartReplace(teams: seq<Team>, i: nat, team: Team)
    requires Apart(teams) && i < |teams|
    requires forall x :: x in team.members ==> x in teams[i].members || !IsInAnotherTeam(teams, i, x)
    ensures Apart(teams[i := team])
  {
    var after := teams[i := team];
    forall a, b, x | 0 <= a < b < |after| && x in after[a].members ensures x !in after[b].members {
      if b == i && x in team.members && x !in teams[i].members {
        assert IsInAnotherTeam(teams, i, x);
      }
    }
  }

  lemma ApartDrop(teams: seq<Team>, i: nat)
    requires Apart(teams) && i < |teams|
    ensures Apart(teams[..i] + teams[i + 1..])
  {
  }

  lemma AddKeepsApart(c: Chat, i: nat, player: Id)
    requires Apart(c.teams) && i < |c.teams|
    ensures Apart(AddMember(c, i, player).teams)
        <==> !(HasRoomFor(c.teams[i], player) && IsInAnotherTeam(c.teams, i, player))
  {
    var team := c.teams[i];
    if HasRoomFor(team, player) {
      var joined := team.(members := team.members + [player]);
      var after := c.teams[i := joined];
      assert AddMember(c, i, player).teams == after;
      if IsInAnotherTeam(c.teams, i, player) {
        var j :| 0 <= j < |c.teams| && j != i && player in c.teams[j].members;
        assert player in after[i].members && player in after[j].members;
      } else {
        ApartReplace(c.teams, i, joined);
      }
    }
  }

  lemma RemoveKeepsApart(c: Chat, i: nat, player: Id)
    requires Apart(c.teams) && i < |c.teams|
    ensures Apart(RemoveMember(c, i, player).teams)
  {
    var left := AfterLeaving(c.teams[i], player);
    if left == [] {
      ApartDrop(c.teams, i);
      assert c.teams[..i] + left + c.teams[i + 1..] == c.teams[..i] + c.teams[i + 1..];
    } else {
      ApartReplace(c.teams, i, left[0]);
      assert c.teams[..i] + left + c.teams[i + 1..] == c.teams[i := left[0]];
    }
  }

  lemma CreateKeepsApart(c: Chat, leader: Id, isLocal: bool)
    requires Apart(c.teams) && FindTeam(c.teams, leader) == |c.teams|
    ensures Apart(CreateTeam(c, leader, isLocal).teams)
  {
    FoundingTeam(c, leader, isLocal);
  }

  // ----- the leader among the members

  predicate LeaderIsMember(team: Team) {
    team.leader in team.members
  }

  predicate LeadersAreMembers(teams: seq<Team>) {
    forall i :: 0 <= i < |teams| ==> LeaderIsMember(teams[i])
  }

  // Promotion is the one packet that can put an outsider in charge.
  predicate PromotesOutsider(c: Chat, e: Event) {
    && e.PromoteTo? && e.promoted in c.players
    && var i := FindTeam(c.teams, e.player);
      LeadsTeam(c, i, e.player) && e.promoted !in c.teams[i].members
  }

  lemma LeadersReplace(teams: seq<Team>, i: nat, team: Team)
    requires LeadersAreMembers(teams) && i < |teams|
    ensures LeadersAreMembers(teams[i := team]) <==> LeaderIsMember(team)
  {
    assert teams[i := team][i] == team;
  }

  lemma AddKeepsLeaders(c: Chat, i: nat, player: Id)
    requires LeadersAreMembers(c.teams) && i < |c.teams|
    ensures LeadersAreMembers(AddMember(c, i, player).teams)
  {
    var team := c.teams[i];
    assert LeaderIsMember(team);
    LeadersReplace(c.teams, i, team.(members := team.members + [player]));
  }

  lemma RemoveKeepsLeaders(c: Chat, i: nat, player: Id)
    requires LeadersAreMembers(c.teams) && i < |c.teams|
    ensures LeadersAreMembers(RemoveMember(c, i, player).teams)
  {
    assert LeaderIsMember(c.teams[i]);
    assert forall t :: t in AfterLeaving(c.teams[i], player) ==> LeaderIsMember(t);
  }

  lemma LeaveKeepsLeaders(c: Chat, player: Id)
    requires LeadersAreMembers(c.teams)
    ensures LeadersAreMembers(LeaveOldTeam(c, player).teams)
  {
    var i := FindTeam(c.teams, player);
    if i < |c.teams| {
      RemoveKeepsLeaders(c, i, player);
    }
  }

  lemma CreateKeepsLeaders(c: Chat, leader: Id, isLocal: bool)
    requires LeadersAreMembers(c.teams)
    ensures LeadersAreMembers(CreateTeam(c, leader, isLocal).teams)
  {
    FoundingTeam(c, leader, isLocal);
  }

  lemma GatherOneKeepsLeaders(c: Chat, isFirst: bool, player: Id)
    requires LeadersAreMembers(c.teams)
    ensures LeadersAreMembers(GatherOne(c, isFirst, player).teams)
  {
    LeaveKeepsLeaders(c, player);
    var d := LeaveOldTeam(c, player);
    if isFirst {
      CreateKeepsLeaders(d, player, true);
    } else if d.teams != [] {
      AddKeepsLeaders(d, |d.teams| - 1, player);
    }
  }

  lemma {:induction false} GatherKeepsLeaders(c: Chat, players: seq<Id>)
    requires LeadersAreMembers(c.teams)
    ensures LeadersAreMembers(Gather(c, players).teams)
    decreases |players|
  {
    if players != [] {
      var n := |players| - 1;
      GatherKeepsLeaders(c, players[..n]);
      GatherOneKeepsLeaders(Gather(c, players[..n]), n == 0, players[n]);
    }
  }

  lemma TeamServerKeepsLeaders(c: Chat, players: seq<Id>, zone: Zone)
    requires LeadersAreMembers(c.teams)
    ensures LeadersAreMembers(CreateTeamServer(c, players, zone).teams)
  {
    GatherKeepsLeaders(c, players);
    var d := Gather(c, players);
    if d.teams != [] {
      var last := |d.teams| - 1;
      assert LeaderIsMember(d.teams[last]);
      LeadersReplace(d.teams, last, d.teams[last].(loot := 1));
      var e := CreateLocalTeam(c, players);
      LeadersReplace(e.teams, last, e.teams[last].(zone := zone));
    }
  }

  lemma OwnTeamPacketKeepsLeaders(c: Chat, e: Event)
    requires LeadersAreMembers(c.teams) && (e.Kick? || e.LootOption? || e.StatusRequest? || e.PromoteTo?)
    ensures LeadersAreMembers(Step(c, e).teams) <==> !PromotesOutsider(c, e)
  {
    var i := FindTeam(c.teams, e.player);
    if i < |c.teams| {
      assert LeaderIsMember(c.teams[i]);
      match e
      case Kick(_, kicked) => RemoveKeepsLeaders(c, i, kicked);
      case LootOption(_, option) => LeadersReplace(c.teams, i, c.teams[i].(loot := option));
      case StatusRequest(player) => RemoveKeepsLeaders(c, i, player);
      case PromoteTo(_, promoted) => LeadersReplace(c.teams, i, c.teams[i].(leader := promoted));
    }
  }

  lemma StepKeepsLeaders(c: Chat, e: Event)
    requires LeadersAreMembers(c.teams)
    ensures LeadersAreMembers(Step(c, e).teams) <==> !PromotesOutsider(c, e)
  {
    match e
    case Login(_, _) =>
    case Logout(_) =>
    case Invite(player) => CreateKeepsLeaders(c, player, false);
    case InviteResponse(player, _, leader) =>
      var i := TargetTeam(c, player, leader);
      if i < |c.teams| {
        AddKeepsLeaders(c, i, player);
      }
    case Leave(player) => LeaveKeepsLeaders(c, player);
    case TeamServer(players, zone) => TeamServerKeepsLeaders(c, players, zone);
    case _ => OwnTeamPacketKeepsLeaders(c, e);
  }

  predicate NoOutsiderIsPromoted(c: Chat, events: seq<Event>) {
    forall k :: 0 <= k < |events| ==> !PromotesOutsider(Run(c, events[..k]), events[k])
  }

  lemma {:induction false} RunKeepsLeaders(c: Chat, events: seq<Event>)
    requires LeadersAreMembers(c.teams) && NoOutsiderIsPromoted(c, events)
    ensures LeadersAreMembers(Run(c, events).teams)
    decreases |events|
  {
    if events != [] {
      var n := |events| - 1;
      forall k | 0 <= k < n ensures !PromotesOutsider(Run(c, events[..n][..k]), events[..n][k]) {
        assert events[..n][..k] == events[..k];
      }
      RunKeepsLeaders(c, events[..n]);
      StepKeepsLeaders(Run(c, events[..n]), events[n]);
    }
  }
}
