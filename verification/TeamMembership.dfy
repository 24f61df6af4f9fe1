/**
  Who can bring a player into a team, and who can take a player out of one (dChatServer/ChatPacketHandler.cpp).
 */
module TeamMembership {
  import opened Basics
  import opened Teams
  import opened TeamInvariants
  import opened TeamReplica

  predicate IsMember(teams: seq<Team>, id: Id, player: Id) {
    exists i :: 0 <= i < |teams| && teams[i].id == id && player in teams[i].members
  }

  // The player leaves the team, or is one of the last two in it while the other one leaves.
  predicate IsHitBy(team: Team, leaver: Id, player: Id) {
    leaver in team.members && (leaver == player || |team.members| <= 2)
  }

  // Nobody else of the team is not listed.
  predicate IsOnlyOneOf(team: Team, players: seq<Id>, player: Id) {
    forall x :: x in team.members && x != player ==> x in players
  }

  // The packets that can take a player out of a team.
  predicate CanTakeOut(c: Chat, e: Event, team: Team, player: Id) {
    match e
    case Leave(p) => IsHitBy(team, p, player)
    case Kick(p, kicked) => team.leader == p != kicked && IsHitBy(team, kicked, player)
    case StatusRequest(p) =>
      p in c.players && p in team.members
      && ((IsElsewhere(team, c.players[p]) && IsHitBy(team, p, player)) || (|team.members| <= 1 && !team.isLocal))
    case TeamServer(players, _) =>
      && (exists p :: p in players && p in team.members)
      && (player in players || IsOnlyOneOf(team, players, player))
    case _ => false
  }

  // The packets that can bring a player into a team.
  predicate CanBringIn(e: Event, player: Id) {
    match e
    case Invite(p) => p == player
    case InviteResponse(p, declined, _) => p == player && !declined
    case TeamServer(players, _) => player in players
    case _ => false
  }

  lemma Spliced(teams: seq<Team>, i: nat, left: seq<Team>, k: nat)
    requires i < |teams| && k < |teams| && k != i
    ensures var after := teams[..i] + left + teams[i + 1..];
      var j := if k < i then k else k - 1 + |left|;
      j < |after| && after[j] == teams[k]
  {
  }

  lemma StaysInAfterRemoval(c: Chat, i: nat, leaver: Id, k: nat, player: Id)
    requires i < |c.teams| && k < |c.teams| && player in c.teams[k].members
    requires k == i ==> !IsHitBy(c.teams[i], leaver, player)
    ensures IsMember(RemoveMember(c, i, leaver).teams, c.teams[k].id, player)
  {
    var after, left := RemoveMember(c, i, leaver).teams, AfterLeaving(c.teams[i], leaver);
    if leaver !in c.teams[i].members {
      assert after[k] == c.teams[k];
    } else if k != i {
      Spliced(c.teams, i, left, k);
      assert IsMember(after, c.teams[k].id, player);
    } else {
      assert |left| == 1 && after[i] == left[0];
    }
  }

  lemma StaysInAfterReplacement(teams: seq<Team>, i: nat, team: Team, k: nat, player: Id)
    requires i < |teams| && k < |teams| && player in teams[k].members
    requires team.id == teams[i].id && forall x :: x in teams[i].members ==> x in team.members
    ensures IsMember(teams[i := team], teams[k].id, player)
  {
    assert teams[i := team][k].id == teams[k].id;
  }

  // Nobody is taken out of a team but by leaving it, by its leader, by a request for status from another zone, by
  // being listed when a world assembles a team, or because nobody else is left.
  lemma TakenOutByTheEntitled(c: Chat, e: Event, k: nat, player: Id)
    requires Allowed(e) && WellFormed(c) && k < |c.teams| && player in c.teams[k].members
    ensures IsMember(Step(c, e).teams, c.teams[k].id, player) || CanTakeOut(c, e, c.teams[k], player)
  {
    assert IsMember(c.teams, c.teams[k].id, player);
    match e
    case TeamServer(players, zone) =>
      if forall p :: p in players ==> p !in c.teams[k].members {
        TeamServerSpares(c, players, zone, k, player);
      } else if !CanTakeOut(c, e, c.teams[k], player) {
        var other :| other in c.teams[k].members && other != player && other !in players;
        TeamServerKeepsPair(c, players, zone, c.teams[k].id, player, other);
      }
    case Login(_, _) =>
    case Logout(_) =>
    case Invite(p) =>
      FoundingTeam(c, p, false);
      assert Step(c, e).teams[k] == c.teams[k];
    case InviteResponse(p, _, leader) =>
      var i := TargetTeam(c, p, leader);
      if i < |c.teams| {
        StaysInAfterReplacement(c.teams, i, c.teams[i].(members := c.teams[i].members + [p]), k, player);
      }
    case _ => TakenOutOfOwnTeam(c, e, k, player);
  }

  lemma TakenOutOfOwnTeam(c: Chat, e: Event, k: nat, player: Id)
    requires e.Leave? || e.Kick? || e.PromoteTo? || e.LootOption? || e.StatusRequest?
    requires k < |c.teams| && player in c.teams[k].members
    ensures IsMember(Step(c, e).teams, c.teams[k].id, player) || CanTakeOut(c, e, c.teams[k], player)
  {
    assert IsMember(c.teams, c.teams[k].id, player);
    var i := FindTeam(c.teams, e.player);
    if i < |c.teams| && !CanTakeOut(c, e, c.teams[k], player) {
      match e
      case Leave(p) => StaysInAfterRemoval(c, i, p, k, player);
      case Kick(p, kicked) =>
        if LeadsTeam(c, i, p) && kicked != p {
          StaysInAfterRemoval(c, i, kicked, k, player);
        }
      case PromoteTo(_, promoted) => StaysInAfterReplacement(c.teams, i, c.teams[i].(leader := promoted), k, player);
      case LootOption(_, option) => StaysInAfterReplacement(c.teams, i, c.teams[i].(loot := option), k, player);
      case StatusRequest(p) => StaysInAfterStatusRequest(c, p, k, player);
    }
  }

  lemma StaysInAfterStatusRequest(c: Chat, p: Id, k: nat, player: Id)
    requires k < |c.teams| && player in c.teams[k].members
    requires !CanTakeOut(c, StatusRequest(p), c.teams[k], player)
    ensures IsMember(HandleStatusRequest(c, p).teams, c.teams[k].id, player)
  {
    var i := FindTeam(c.teams, p);
    assert IsMember(c.teams, c.teams[k].id, player);
    if i < |c.teams| && p in c.players {
      if IsElsewhere(c.teams[i], c.players[p]) {
        StaysInAfterRemoval(c, i, p, k, player);
      } else if |c.teams[i].members| <= 1 && !c.teams[i].isLocal {
        Spliced(c.teams, i, [], k);
        assert c.teams[..i] + [] + c.teams[i + 1..] == c.teams[..i] + c.teams[i + 1..];
      }
    }
  }

  lemma OthersBringInNobody(c: Chat, e: Event, id: Id, player: Id)
    requires IsMember(Step(c, e).teams, id, player) && !CanBringIn(e, player)
    ensures IsMember(c.teams, id, player)
  {
    var after := Step(c, e).teams;
    var j: nat :| j < |after| && after[j].id == id && player in after[j].members;
    match e
    case Invite(p) => FoundingTeam(c, p, false);
    case InviteResponse(_, _, _) => assert c.teams[j].id == id && player in c.teams[j].members;
    case TeamServer(players, zone) => TeamServerBringsInListed(c, players, zone, id, player);
    case _ => OnlyShrinks(c, e, j, player);
  }

  // Nor is anybody brought into one but by an own packet or by being listed when a world assembles a team.
  lemma BroughtInByConsent(c: Chat, e: Event, id: Id, player: Id)
    requires IsMember(Step(c, e).teams, id, player) && !IsMember(c.teams, id, player)
    ensures CanBringIn(e, player)
  {
    if !CanBringIn(e, player) {
      OthersBringInNobody(c, e, id, player);
    }
  }

  lemma RemovalOnlyShrinks(c: Chat, i: nat, leaver: Id, j: nat, player: Id)
    requires i < |c.teams|
    requires var after := RemoveMember(c, i, leaver).teams; j < |after| && player in after[j].members
    ensures IsMember(c.teams, RemoveMember(c, i, leaver).teams[j].id, player)
  {
    var after, left := RemoveMember(c, i, leaver).teams, AfterLeaving(c.teams[i], leaver);
    if leaver in c.teams[i].members {
      var k := if j < i then j else if j < i + |left| then i else j - |left| + 1;
      assert after[j].id == c.teams[k].id && player in c.teams[k].members;
    } else {
      assert after[j] == c.teams[j];
    }
  }

  lemma OnlyShrinks(c: Chat, e: Event, j: nat, player: Id)
    requires !e.TeamServer? && !e.Invite? && !e.InviteResponse?
    requires j < |Step(c, e).teams| && player in Step(c, e).teams[j].members
    ensures IsMember(c.teams, Step(c, e).teams[j].id, player)
  {
    match e
    case Login(_, _) => assert Step(c, e).teams[j] == c.teams[j];
    case Logout(_) => assert Step(c, e).teams[j] == c.teams[j];
    case _ => OwnTeamOnlyShrinks(c, e, j, player);
  }

  lemma OwnTeamOnlyShrinks(c: Chat, e: Event, j: nat, player: Id)
    requires e.Leave? || e.Kick? || e.PromoteTo? || e.LootOption? || e.StatusRequest?
    requires j < |Step(c, e).teams| && player in Step(c, e).teams[j].members
    ensures IsMember(c.teams, Step(c, e).teams[j].id, player)
  {
    var i, after := FindTeam(c.teams, e.player), Step(c, e).teams;
    if after == c.teams {
      assert c.teams[j].id == after[j].id;
    } else {
      match e
      case Leave(p) => RemovalOnlyShrinks(c, i, p, j, player);
      case Kick(_, kicked) => RemovalOnlyShrinks(c, i, kicked, j, player);
      case PromoteTo(_, _) => assert after[j].id == c.teams[j].id && after[j].members == c.teams[j].members;
      case LootOption(_, _) => assert after[j].id == c.teams[j].id && after[j].members == c.teams[j].members;
      case StatusRequest(p) =>
        if IsElsewhere(c.teams[i], c.players[p]) {
          RemovalOnlyShrinks(c, i, p, j, player);
        } else if |c.teams[i].members| <= 1 && !c.teams[i].isLocal {
          assert after[j] == c.teams[if j < i then j else j + 1];
        }
    }
  }

  // ----- assembling a team

  lemma LeavingSpares(c: Chat, team: Team, p: Id)
    requires team in c.teams && p !in team.members
    ensures team in LeaveOldTeam(c, p).teams
  {
    var k :| 0 <= k < |c.teams| && c.teams[k] == team;
    var i := FindTeam(c.teams, p);
    if i < |c.teams| {
      Spliced(c.teams, i, AfterLeaving(c.teams[i], p), k);
    }
  }

  // Only the last team changes when somebody joins it.
  lemma JoiningSpares(c: Chat, team: Team, p: Id)
    requires team in c.teams && team.id != c.teams[|c.teams| - 1].id
    ensures team in JoinLast(c, p).teams
  {
    var k :| 0 <= k < |c.teams| && c.teams[k] == team;
    assert JoinLast(c, p).teams[k] == team;
  }

  lemma FoundingIsNewest(c: Chat, p: Id)
    ensures NewestIsLast(c, GatherOne(c, true, p), [p])
  {
    FoundedIsNewest(c, LeaveOldTeam(c, p), p);
  }

  lemma JoiningIsNewest(c: Chat, d: Chat, before: seq<Id>, p: Id)
    requires NewestIsLast(c, d, before)
    ensures NewestIsLast(c, JoinLast(d, p), before + [p])
  {
    var last := |d.teams| - 1;
    assert JoinLast(d, p).teams[last].id == d.teams[last].id;
  }

  lemma {:induction false} GatherEndsWithNewest(c: Chat, players: seq<Id>)
    requires players != [] && Distinct(players)
    ensures NewestIsLast(c, Gather(c, players), players)
    decreases |players|
  {
    var n := |players| - 1;
    var before, p := players[..n], players[n];
    assert players == before + [p];
    if n == 0 {
      assert Gather(c, before) == c;
      FoundingIsNewest(c, p);
    } else {
      var d := Gather(c, before);
      GatherEndsWithNewest(c, before);
      LeavingSparesNewest(c, d, before, p);
      JoiningIsNewest(c, LeaveOldTeam(d, p), before, p);
    }
  }

  lemma FoundingSpares(c: Chat, team: Team, p: Id)
    requires team in c.teams && p !in team.members
    ensures team in GatherOne(c, true, p).teams
  {
    LeavingSpares(c, team, p);
    FoundingTeam(LeaveOldTeam(c, p), p, true);
  }

  lemma JoiningNewestSpares(c: Chat, d: Chat, before: seq<Id>, team: Team, p: Id)
    requires NewestIsLast(c, d, before) && team in d.teams && team.id <= c.counter && p !in before && p !in team.members
    ensures team in GatherOne(d, false, p).teams
  {
    LeavingSpares(d, team, p);
    LeavingSparesNewest(c, d, before, p);
    JoiningSpares(LeaveOldTeam(d, p), team, p);
  }

  lemma {:induction false} GatherSpares(c: Chat, players: seq<Id>, team: Team)
    requires players != [] && Distinct(players) && team in c.teams && team.id <= c.counter
    requires forall p :: p in players ==> p !in team.members
    ensures team in Gather(c, players).teams
    decreases |players|
  {
    var n := |players| - 1;
    var before, p := players[..n], players[n];
    assert players == before + [p];
    if n == 0 {
      assert Gather(c, before) == c;
      FoundingSpares(c, team, p);
    } else {
      GatherSpares(c, before, team);
      GatherEndsWithNewest(c, before);
      JoiningNewestSpares(c, Gather(c, before), before, team, p);
    }
  }

  // The new team's loot rules and zone are all that changes at the end.
  lemma FinishKeepsMembers(d: Chat, zone: Zone)
    ensures var after := SettleIn(ShareLoot(d), zone).teams;
      && |after| == |d.teams|
      && (forall j :: 0 <= j < |after| ==> after[j].id == d.teams[j].id && after[j].members == d.teams[j].members)
  {
  }

  lemma TeamServerSpares(c: Chat, players: seq<Id>, zone: Zone, k: nat, player: Id)
    requires WellFormed(c) && players != [] && Distinct(players) && k < |c.teams| && player in c.teams[k].members
    requires forall p :: p in players ==> p !in c.teams[k].members
    ensures IsMember(CreateTeamServer(c, players, zone).teams, c.teams[k].id, player)
  {
    var d := Gather(c, players);
    GatherSpares(c, players, c.teams[k]);
    FinishKeepsMembers(d, zone);
    var j :| 0 <= j < |d.teams| && d.teams[j] == c.teams[k];
    assert CreateTeamServer(c, players, zone).teams[j].id == c.teams[k].id;
  }

  predicate AreTogether(teams: seq<Team>, id: Id, x: Id, y: Id) {
    exists i :: 0 <= i < |teams| && teams[i].id == id && x in teams[i].members && y in teams[i].members
  }

  // Two players who do not leave keep their team.
  lemma LeavingKeepsPair(c: Chat, p: Id, id: Id, x: Id, y: Id)
    requires AreTogether(c.teams, id, x, y) && x != y && p != x && p != y
    ensures AreTogether(LeaveOldTeam(c, p).teams, id, x, y)
  {
    var k :| 0 <= k < |c.teams| && c.teams[k].id == id && x in c.teams[k].members && y in c.teams[k].members;
    var i, after := FindTeam(c.teams, p), LeaveOldTeam(c, p).teams;
    if i < |c.teams| {
      var left := AfterLeaving(c.teams[i], p);
      if i != k {
        Spliced(c.teams, i, left, k);
      } else {
        var rest := Without(c.teams[k].members, p);
        assert x in rest && y in rest;
        assert |left| == 1 && after[k] == left[0];
      }
    }
  }

  lemma JoiningKeepsPair(c: Chat, isFirst: bool, p: Id, id: Id, x: Id, y: Id)
    requires AreTogether(c.teams, id, x, y)
    ensures AreTogether(if isFirst then CreateTeam(c, p, true).teams else JoinLast(c, p).teams, id, x, y)
  {
    var k :| 0 <= k < |c.teams| && c.teams[k].id == id && x in c.teams[k].members && y in c.teams[k].members;
    FoundingTeam(c, p, true);
    var after := if isFirst then CreateTeam(c, p, true).teams else JoinLast(c, p).teams;
    assert after[k].id == id && x in after[k].members && y in after[k].members;
  }

  lemma {:induction false} GatherKeepsPair(c: Chat, players: seq<Id>, id: Id, x: Id, y: Id)
    requires AreTogether(c.teams, id, x, y) && x != y && x !in players && y !in players
    ensures AreTogether(Gather(c, players).teams, id, x, y)
    decreases |players|
  {
    if players != [] {
      var n := |players| - 1;
      var d := Gather(c, players[..n]);
      GatherKeepsPair(c, players[..n], id, x, y);
      LeavingKeepsPair(d, players[n], id, x, y);
      JoiningKeepsPair(LeaveOldTeam(d, players[n]), n == 0, players[n], id, x, y);
    }
  }

  lemma TeamServerKeepsPair(c: Chat, players: seq<Id>, zone: Zone, id: Id, x: Id, y: Id)
    requires AreTogether(c.teams, id, x, y) && x != y && x !in players && y !in players
    ensures IsMember(CreateTeamServer(c, players, zone).teams, id, x)
  {
    var d := Gather(c, players);
    GatherKeepsPair(c, players, id, x, y);
    FinishKeepsMembers(d, zone);
    var j :| 0 <= j < |d.teams| && d.teams[j].id == id && x in d.teams[j].members && y in d.teams[j].members;
    assert CreateTeamServer(c, players, zone).teams[j].members == d.teams[j].members;
  }

  lemma {:induction false} GatherBringsInListed(c: Chat, players: seq<Id>, id: Id, player: Id)
    requires IsMember(Gather(c, players).teams, id, player)
    ensures IsMember(c.teams, id, player) || player in players
    decreases |players|
  {
    if players != [] {
      var n := |players| - 1;
      var d, p := Gather(c, players[..n]), players[n];
      if player != p {
        GatherOneBringsIn(d, n == 0, p, id, player);
        GatherBringsInListed(c, players[..n], id, player);
      }
    }
  }

  lemma GatherOneBringsIn(d: Chat, isFirst: bool, p: Id, id: Id, player: Id)
    requires IsMember(GatherOne(d, isFirst, p).teams, id, player) && player != p
    ensures IsMember(d.teams, id, player)
  {
    var e, after := LeaveOldTeam(d, p), GatherOne(d, isFirst, p).teams;
    var j :| 0 <= j < |after| && after[j].id == id && player in after[j].members;
    FoundingTeam(e, p, true);
    assert j < |e.teams| && e.teams[j].id == id && player in e.teams[j].members;
    var i := FindTeam(d.teams, p);
    if i < |d.teams| {
      RemovalOnlyShrinks(d, i, p, j, player);
    }
  }

  lemma TeamServerBringsInListed(c: Chat, players: seq<Id>, zone: Zone, id: Id, player: Id)
    requires IsMember(CreateTeamServer(c, players, zone).teams, id, player)
    ensures IsMember(c.teams, id, player) || player in players
  {
    var d, after := Gather(c, players), CreateTeamServer(c, players, zone).teams;
    var j :| 0 <= j < |after| && after[j].id == id && player in after[j].members;
    FinishKeepsMembers(d, zone);
    assert d.teams[j].id == id && player in d.teams[j].members;
    GatherBringsInListed(c, players, id, player);
  }
}
