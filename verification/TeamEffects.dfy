/**
  What the packets of players do to their teams, exactly (dChatServer/ChatPacketHandler.cpp).

  `TeamMembership` says who may take a player out of a team or bring one in; here it does happen.
 */
module TeamEffects {
  import opened Basics
  import opened Teams
  import opened TeamInvariants
  import opened TeamReplica
  import opened TeamMembership

  // The first team the player is in is the one at k.
  predicate IsOwnTeam(c: Chat, k: nat, player: Id)
    requires k < |c.teams|
  {
    player in c.teams[k].members && forall j :: 0 <= j < k ==> player !in c.teams[j].members
  }

  predicate IsTeamless(c: Chat, player: Id) {
    forall team :: team in c.teams ==> player !in team.members
  }

  // The rest is the members but for the first occurrence of the player, in order.
  predicate LeavesOut(members: seq<Id>, player: Id, rest: seq<Id>) {
    exists i :: 0 <= i < |members| && LeavesOutAt(members, player, rest, i)
  }

  predicate LeavesOutAt(members: seq<Id>, player: Id, rest: seq<Id>, i: nat)
    requires i < |members|
  {
    members[i] == player && player !in members[..i] && rest == members[..i] + members[i + 1..]
  }

  // In d the player has left the team at k.  A team of fewer than two is dissolved, the first of those who stay leads
  // it if the leader has left, and the worlds are told.
  predicate HasLeft(c: Chat, d: Chat, k: nat, player: Id, rest: seq<Id>)
    requires k < |c.teams|
  {
    var team := c.teams[k];
    && LeavesOut(team.members, player, rest) && d == c.(teams := d.teams, sent := d.sent)
    && if |rest| >= 2 then
         var leader := if team.leader == player then rest[0] else team.leader;
         && d.teams == c.teams[k := team.(members := rest, leader := leader)]
         && d.sent == c.sent + [Update(team.id, team.loot, rest)]
       else
         && d.teams == c.teams[..k] + c.teams[k + 1..]
         && d.sent == c.sent + [Update(team.id, team.loot, rest), Delete(team.id)]
  }

  lemma LeavesOutLater(first: Id, tail: seq<Id>, player: Id, rest: seq<Id>, i: nat)
    requires first != player && i < |tail| && LeavesOutAt(tail, player, rest, i)
    ensures LeavesOutAt([first] + tail, player, [first] + rest, i + 1)
  {
    var members := [first] + tail;
    assert members[..i + 1] == [first] + tail[..i];
    assert members[i + 2..] == tail[i + 1..];
  }

  lemma {:induction false} WithoutLeavesOut(members: seq<Id>, player: Id) returns (i: nat)
    requires player in members
    ensures i < |members| && LeavesOutAt(members, player, Without(members, player), i)
  {
    if members[0] == player {
      i := 0;
    } else {
      var tail := members[1..];
      assert members == [members[0]] + tail;
      i := WithoutLeavesOut(tail, player);
      LeavesOutLater(members[0], tail, player, Without(tail, player), i);
      i := i + 1;
    }
  }

  lemma RemovalMeans(c: Chat, k: nat, player: Id) returns (rest: seq<Id>)
    requires k < |c.teams| && player in c.teams[k].members
    ensures HasLeft(c, RemoveMember(c, k, player), k, player, rest)
  {
    var team := c.teams[k];
    rest := Without(team.members, player);
    var i := WithoutLeavesOut(team.members, player);
    var left := AfterLeaving(team, player);
    assert [Update(team.id, team.loot, rest)] + [] == [Update(team.id, team.loot, rest)];
    if |rest| >= 2 {
      assert c.teams[..k] + left + c.teams[k + 1..] == c.teams[k := left[0]];
    } else {
      assert c.teams[..k] + left + c.teams[k + 1..] == c.teams[..k] + c.teams[k + 1..];
    }
  }

  lemma OwnTeamIsFound(c: Chat, k: nat, player: Id)
    requires k < |c.teams| && IsOwnTeam(c, k, player)
    ensures FindTeam(c.teams, player) == k
  {
  }

  lemma TeamlessIsNotFound(c: Chat, player: Id)
    requires IsTeamless(c, player)
    ensures FindTeam(c.teams, player) == |c.teams|
  {
  }

  // ----- leaving

  lemma LeaveMeans(c: Chat, player: Id, k: nat) returns (rest: seq<Id>)
    requires k < |c.teams| && IsOwnTeam(c, k, player)
    ensures HasLeft(c, Step(c, Leave(player)), k, player, rest)
  {
    OwnTeamIsFound(c, k, player);
    rest := RemovalMeans(c, k, player);
  }

  // A leader takes out any other member.
  lemma KickMeans(c: Chat, player: Id, kicked: Id, k: nat) returns (rest: seq<Id>)
    requires k < |c.teams| && IsOwnTeam(c, k, player) && c.teams[k].leader == player
    requires kicked != NOBODY && kicked != player && kicked in c.teams[k].members
    ensures HasLeft(c, Step(c, Kick(player, kicked)), k, kicked, rest)
  {
    OwnTeamIsFound(c, k, player);
    rest := RemovalMeans(c, k, kicked);
  }

  lemma OthersKickNobody(c: Chat, player: Id, kicked: Id, k: nat)
    requires k < |c.teams| && IsOwnTeam(c, k, player)
    requires c.teams[k].leader != player || kicked == player || kicked == NOBODY || kicked !in c.teams[k].members
    ensures Step(c, Kick(player, kicked)) == c
  {
    OwnTeamIsFound(c, k, player);
  }

  // Who is in a local team and reports from another map and another clone leaves it.
  lemma StatusRequestElsewhereMeans(c: Chat, player: Id, k: nat) returns (rest: seq<Id>)
    requires k < |c.teams| && IsOwnTeam(c, k, player) && player in c.players && c.teams[k].isLocal
    requires c.players[player].mapId != c.teams[k].zone.mapId && c.players[player].clone != c.teams[k].zone.clone
    ensures HasLeft(c, Step(c, StatusRequest(player)), k, player, rest)
  {
    OwnTeamIsFound(c, k, player);
    rest := RemovalMeans(c, k, player);
  }

  // Who has left is in the team no longer, the others are if there are two or more, and otherwise the team is gone.
  lemma LeftMeans(c: Chat, d: Chat, k: nat, player: Id, rest: seq<Id>)
    requires WellFormed(c) && k < |c.teams| && HasLeft(c, d, k, player, rest)
    ensures !IsMember(d.teams, c.teams[k].id, player)
    ensures forall x :: x in c.teams[k].members && x != player && |rest| >= 2 ==> IsMember(d.teams, c.teams[k].id, x)
    ensures |rest| < 2 ==> !HasTeam(d.teams, c.teams[k].id)
  {
    var team := c.teams[k];
    var i :| 0 <= i < |team.members| && LeavesOutAt(team.members, player, rest, i);
    assert player !in team.members[i + 1..];
    if |rest| >= 2 {
      assert d.teams[k].members == rest && d.teams[k].id == team.id;
      assert forall j :: 0 <= j < |d.teams| && j != k ==> d.teams[j] == c.teams[j];
    } else {
      assert forall j :: 0 <= j < |d.teams| ==> d.teams[j] == c.teams[if j < k then j else j + 1];
    }
  }

  // A player who is kicked is out at once, and stays out until an own packet or a list brings the player back.
  lemma KickedIsOut(c: Chat, player: Id, kicked: Id, k: nat, events: seq<Event>)
    requires WellFormed(c) && k < |c.teams| && IsOwnTeam(c, k, player) && c.teams[k].leader == player
    requires kicked != NOBODY && kicked != player && kicked in c.teams[k].members
    requires forall e :: e in events ==> !CanBringIn(e, kicked)
    ensures !IsMember(Run(Step(c, Kick(player, kicked)), events).teams, c.teams[k].id, kicked)
  {
    var rest := KickMeans(c, player, kicked, k);
    LeftMeans(c, Step(c, Kick(player, kicked)), k, kicked, rest);
    StaysOut(Step(c, Kick(player, kicked)), c.teams[k].id, kicked, events);
  }

  lemma LeaverIsOut(c: Chat, player: Id, k: nat, events: seq<Event>)
    requires WellFormed(c) && k < |c.teams| && IsOwnTeam(c, k, player)
    requires forall e :: e in events ==> !CanBringIn(e, player)
    ensures !IsMember(Run(Step(c, Leave(player)), events).teams, c.teams[k].id, player)
  {
    var rest := LeaveMeans(c, player, k);
    LeftMeans(c, Step(c, Leave(player)), k, player, rest);
    StaysOut(Step(c, Leave(player)), c.teams[k].id, player, events);
  }

  lemma {:induction false} StaysOut(c: Chat, id: Id, player: Id, events: seq<Event>)
    requires !IsMember(c.teams, id, player) && forall e :: e in events ==> !CanBringIn(e, player)
    ensures !IsMember(Run(c, events).teams, id, player)
    decreases |events|
  {
    if events != [] {
      var n := |events| - 1;
      StaysOut(c, id, player, events[..n]);
      if IsMember(Run(c, events).teams, id, player) {
        BroughtInByConsent(Run(c, events[..n]), events[n], id, player);
      }
    }
  }

  // ----- a status request from the team's own zone

  predicate IsAtHome(team: Team, zone: Zone) {
    !team.isLocal || zone.mapId == team.zone.mapId || zone.clone == team.zone.clone
  }

  lemma StatusRequestAnnounces(c: Chat, player: Id, k: nat)
    requires k < |c.teams| && IsOwnTeam(c, k, player) && player in c.players
    requires IsAtHome(c.teams[k], c.players[player]) && (|c.teams[k].members| > 1 || c.teams[k].isLocal)
    ensures var team, d := c.teams[k], Step(c, StatusRequest(player));
      d == c.(sent := c.sent + (if team.leader in c.players then [Announcement(team)] else []) + [Announcement(team)])
  {
    OwnTeamIsFound(c, k, player);
  }

  // A player alone in a team that no world has put together dissolves it.
  lemma StatusRequestDissolves(c: Chat, player: Id, k: nat)
    requires k < |c.teams| && IsOwnTeam(c, k, player) && player in c.players
    requires |c.teams[k].members| == 1 && !c.teams[k].isLocal
    ensures Step(c, StatusRequest(player))
         == c.(teams := c.teams[..k] + c.teams[k + 1..], sent := c.sent + [Delete(c.teams[k].id)])
  {
    OwnTeamIsFound(c, k, player);
  }

  // ----- leading

  lemma PromotionMeans(c: Chat, player: Id, promoted: Id, k: nat)
    requires k < |c.teams| && IsOwnTeam(c, k, player)
    ensures Step(c, PromoteTo(player, promoted))
         == if c.teams[k].leader == player && promoted in c.players
            then c.(teams := c.teams[k := c.teams[k].(leader := promoted)]) else c
  {
    OwnTeamIsFound(c, k, player);
  }

  // The leader's choice is announced, twice if the leader is online.
  lemma LootOptionMeans(c: Chat, player: Id, option: int, k: nat)
    requires k < |c.teams| && IsOwnTeam(c, k, player)
    ensures var team, d := c.teams[k], Step(c, LootOption(player, option));
      var news := Update(team.id, option, team.members);
      d == if team.leader != player then c
           else c.(teams := c.teams[k := team.(loot := option)],
                   sent := c.sent + (if player in c.players then [news] else []) + [news])
  {
    OwnTeamIsFound(c, k, player);
  }

  // ----- joining

  // A player who invites somebody has a team from then on.
  lemma InvitationFounds(c: Chat, player: Id)
    requires IsTeamless(c, player) && player in c.players
    ensures var team := Team(c.counter + 1, player, [player], c.defaultLoot, false, Zone(0, 0));
      Step(c, Invite(player)) == c.(counter := c.counter + 1, teams := c.teams + [team],
              sent := c.sent + [Update(c.counter + 1, c.defaultLoot, [player])])
  {
    TeamlessIsNotFound(c, player);
    FoundingTeam(c, player, false);
  }

  lemma OtherInvitationsFoundNothing(c: Chat, player: Id)
    requires !IsTeamless(c, player) || player !in c.players
    ensures Step(c, Invite(player)) == c
  {
  }

  // Who accepts joins the leader's team as its last member if there is room, which is broadcast if both are online.
  lemma AcceptanceMeans(c: Chat, player: Id, leader: Id, k: nat)
    requires k < |c.teams| && IsOwnTeam(c, k, leader)
    ensures var team, d := c.teams[k], Step(c, InviteResponse(player, false, leader));
      var joined := team.(members := team.members + [player]);
      var toldTo := team.leader in c.players && player in c.players;
      d == if |team.members| >= 4 || player in team.members then c
           else c.(teams := c.teams[k := joined],
                   sent := c.sent + if toldTo then [Update(team.id, team.loot, joined.members)] else [])
  {
    OwnTeamIsFound(c, k, leader);
    assert c.sent + [] == c.sent;
  }

  // Without a team of the leader nothing happens: the player is in the team that is used instead already.
  lemma OtherResponsesDoNothing(c: Chat, player: Id, declined: bool, leader: Id)
    requires declined || IsTeamless(c, leader)
    ensures Step(c, InviteResponse(player, declined, leader)) == c
  {
    if !declined {
      TeamlessIsNotFound(c, leader);
    }
  }

  // Players without a team can neither leave, kick, promote, choose nor ask for anything.
  lemma TeamlessDoNothing(c: Chat, e: Event)
    requires e.Leave? || e.Kick? || e.PromoteTo? || e.LootOption? || e.StatusRequest?
    requires IsTeamless(c, e.player)
    ensures Step(c, e) == c
  {
    TeamlessIsNotFound(c, e.player);
  }

  // Coming and going changes no team, and zero is never online.
  lemma LoginMeans(c: Chat, player: Id, zone: Zone)
    ensures var d, e := Step(c, Login(player, zone)), Step(c, Logout(player));
      && d == c.(players := d.players) && e == c.(players := e.players)
      && (forall p :: p in d.players <==> p in c.players || (p == player && p != 0))
      && (forall p :: p in e.players <==> p in c.players && p != player)
      && (forall p :: p in c.players && p != player ==>
           d.players[p] == c.players[p] && e.players[p] == c.players[p])
      && (player != 0 ==> d.players[player] == zone)
  {
  }
}
