/**
  The copy of the teams that each world keeps (dGame/TeamManager.cpp), fed by the chat server's broadcasts in
  the order they were sent.

  The copy shows exactly the teams of two or more, member for member, except for teams that somebody joined
  while the newcomer or the leader was offline and that have not been announced since.
 */
module TeamReplica {
  import opened Basics
  import opened Teams
  import opened TeamInvariants

  datatype Copy = Copy(loot: int, members: seq<Id>)

  type World = map<Id, Copy>

  // A world ignores teams it does not know until they have two members.
  function Receive(world: World, b: Broadcast): World {
    match b
    case Delete(team) => world - {team}
    case Update(team, loot, members) =>
      if team !in world && |members| <= 1 then world else world[team := Copy(loot, members)]
  }

  function Replay(sent: seq<Broadcast>): World
    decreases |sent|
  {
    if sent == [] then map[] else Receive(Replay(sent[..|sent| - 1]), sent[|sent| - 1])
  }

  lemma ReplayNext(sent: seq<Broadcast>, b: Broadcast)
    ensures Replay(sent + [b]) == Receive(Replay(sent), b)
  {
    assert (sent + [b])[..|sent|] == sent;
  }

  function View(teams: seq<Team>): World {
    if teams == [] then map[]
    else
      var others := View(teams[1..]);
      if |teams[0].members| <= 1 then others else others[teams[0].id := Copy(teams[0].loot, teams[0].members)]
  }

  // ----- which teams are out of date

  function Mentioned(sent: seq<Broadcast>): set<Id> {
    set b | b in sent :: b.team
  }

  function News(c: Chat, d: Chat): seq<Broadcast> {
    if |c.sent| <= |d.sent| then d.sent[|c.sent|..] else []
  }

  // The team that an accepted invitation changes without a broadcast.
  function SilentlyJoined(c: Chat, e: Event): set<Id> {
    if !e.InviteResponse? || e.declined then {}
    else
      var i := TargetTeam(c, e.player, e.leader);
      if i < |c.teams| && HasRoomFor(c.teams[i], e.player)
        && !(c.teams[i].leader in c.players && e.player in c.players)
      then {c.teams[i].id}
      else {}
  }

  function StaleAfter(c: Chat, events: seq<Event>): set<Id>
    decreases |events|
  {
    if events == [] then {}
    else
      var n := |events| - 1;
      var before := Run(c, events[..n]);
      StaleAfter(c, events[..n]) - Mentioned(News(before, Step(before, events[n]))) + SilentlyJoined(before, events[n])
  }

  // ----- the invariant

  predicate InSync(world: World, team: Team) {
    if |team.members| <= 1 then team.id !in world
    else team.id in world && world[team.id] == Copy(team.loot, team.members)
  }

  predicate Behind(world: World, team: Team) {
    |team.members| >= 2 && (team.id in world ==> |world[team.id].members| < |team.members|)
  }

  // Nothing is asked of the team called newest, still being put together, but that a team of one is unknown.
  predicate TracksTeam(world: World, team: Team, stale: set<Id>, newest: Id) {
    if team.id == newest then |team.members| <= 1 ==> team.id !in world
    else if team.id in stale then Behind(world, team)
    else InSync(world, team)
  }

  predicate HasTeam(teams: seq<Team>, id: Id) {
    exists i :: 0 <= i < |teams| && teams[i].id == id
  }

  ghost predicate Tracks(world: World, teams: seq<Team>, stale: set<Id>, newest: Id) {
    && (forall i :: 0 <= i < |teams| ==> TracksTeam(world, teams[i], stale, newest))
    && (forall id :: id in world || id in stale ==> HasTeam(teams, id))
  }

  ghost predicate Follows(c: Chat, stale: set<Id>, newest: Id) {
    WellFormed(c) && Tracks(Replay(c.sent), c.teams, stale, newest)
  }

  // Once the team id is announced or deleted it is neither stale nor unfinished.
  function Settle(newest: Id, id: Id): Id {
    if newest == id then NOBODY else newest
  }

  // ----- what each change of a team does to the invariant

  lemma HasTeamReplace(teams: seq<Team>, i: nat, team: Team, id: Id)
    requires i < |teams| && team.id == teams[i].id
    ensures HasTeam(teams[i := team], id) <==> HasTeam(teams, id)
  {
    var after := teams[i := team];
    if HasTeam(teams, id) {
      var k :| 0 <= k < |teams| && teams[k].id == id;
      assert after[k].id == id;
    }
    if HasTeam(after, id) {
      var k :| 0 <= k < |after| && after[k].id == id;
      assert teams[k].id == id;
    }
  }

  lemma HasTeamDrop(teams: seq<Team>, i: nat, id: Id)
    requires i < |teams| && HasTeam(teams, id) && teams[i].id != id
    ensures HasTeam(teams[..i] + teams[i + 1..], id)
  {
    var after := teams[..i] + teams[i + 1..];
    var k :| 0 <= k < |teams| && teams[k].id == id;
    assert after[if k < i then k else k - 1].id == id;
  }

  // One team replaced, the world told of nothing but that team.
  lemma ReplaceTracks(world: World, after: World, teams: seq<Team>, counter: nat, i: nat, team: Team,
                      stale: set<Id>, stale': set<Id>, newest: Id, newest': Id)
    requires Orderly(teams, counter) && Tracks(world, teams, stale, newest)
    requires i < |teams| && team.id == teams[i].id
    requires after - {team.id} == world - {team.id} && stale' - {team.id} == stale - {team.id}
    requires newest' == newest || (newest == NOBODY && newest' == team.id) || (newest == team.id && newest' == NOBODY)
    requires TracksTeam(after, team, stale', newest')
    ensures Tracks(after, teams[i := team], stale', newest')
  {
    var all := teams[i := team];
    forall k | 0 <= k < |all| ensures TracksTeam(after, all[k], stale', newest') {
      if k != i {
        var id := teams[k].id;
        assert id != team.id;
        assert id in stale - {team.id} <==> id in stale' - {team.id};
        assert id in world - {team.id} <==> id in after - {team.id};
        assert id in world ==> (world - {team.id})[id] == (after - {team.id})[id];
      }
    }
    forall id | id in after || id in stale' ensures HasTeam(all, id) {
      HasTeamReplace(teams, i, team, id);
      if id == team.id {
        assert teams[i].id == id;
      } else {
        assert id in after - {team.id} || id in stale' - {team.id};
        assert id in world - {team.id} || id in stale - {team.id};
      }
    }
  }

  lemma AnnouncedFollows(c: Chat, d: Chat, i: nat, team: Team, stale: set<Id>, newest: Id)
    requires Follows(c, stale, newest) && WellFormed(d)
    requires i < |c.teams| && team.id == c.teams[i].id && d.teams == c.teams[i := team]
    requires d.sent == c.sent + [Announcement(team)]
    requires |team.members| <= 1 ==> |c.teams[i].members| <= 1
    ensures Follows(d, stale - {team.id}, Settle(newest, team.id))
  {
    ReplayNext(c.sent, Announcement(team));
    var world, after := Replay(c.sent), Replay(d.sent);
    assert TracksTeam(world, c.teams[i], stale, newest);
    ReplaceTracks(world, after, c.teams, c.counter, i, team, stale, stale - {team.id}, newest, Settle(newest, team.id));
  }

  lemma SilentFollows(c: Chat, i: nat, player: Id, stale: set<Id>, newest: Id)
    requires Follows(c, stale, newest) && i < |c.teams|
    ensures var team := c.teams[i];
      var d := c.(teams := c.teams[i := team.(members := team.members + [player])]);
      WellFormed(d) ==> Follows(d, if newest == team.id then stale else stale + {team.id}, newest)
  {
    var team := c.teams[i];
    var world := Replay(c.sent);
    assert TracksTeam(world, team, stale, newest);
    ReplaceTracks(world, world, c.teams, c.counter, i, team.(members := team.members + [player]), stale,
                  if newest == team.id then stale else stale + {team.id}, newest, newest);
  }

  // A new leader or zone is not part of the copy; new loot rules are, until they are announced.
  lemma RelabelFollows(c: Chat, i: nat, team: Team, stale: set<Id>, newest: Id)
    requires Follows(c, stale, newest) && i < |c.teams|
    requires team.id == c.teams[i].id && team.members == c.teams[i].members
    ensures team.loot == c.teams[i].loot ==> Follows(c.(teams := c.teams[i := team]), stale, newest)
    ensures newest == NOBODY || newest == team.id
      ==> Follows(c.(teams := c.teams[i := team]), stale - {team.id}, team.id)
  {
    var world := Replay(c.sent);
    assert TracksTeam(world, c.teams[i], stale, newest);
    OrderlyReplace(c.teams, c.counter, i, team);
    if team.loot == c.teams[i].loot {
      ReplaceTracks(world, world, c.teams, c.counter, i, team, stale, stale, newest, newest);
    }
    if newest == NOBODY || newest == team.id {
      ReplaceTracks(world, world, c.teams, c.counter, i, team, stale, stale - {team.id}, newest, team.id);
    }
  }

  lemma DropFollows(c: Chat, d: Chat, i: nat, stale: set<Id>, newest: Id)
    requires Follows(c, stale, newest) && i < |c.teams|
    requires d.teams == c.teams[..i] + c.teams[i + 1..] && d.counter == c.counter
    requires Replay(d.sent) == Replay(c.sent) - {c.teams[i].id}
    ensures Follows(d, stale - {c.teams[i].id}, Settle(newest, c.teams[i].id))
  {
    var id := c.teams[i].id;
    OrderlyDrop(c.teams, c.counter, i);
    forall k | 0 <= k < |d.teams| ensures TracksTeam(Replay(d.sent), d.teams[k], stale - {id}, Settle(newest, id)) {
      var j := if k < i then k else k + 1;
      assert d.teams[k] == c.teams[j] && c.teams[j].id != id;
      assert TracksTeam(Replay(c.sent), c.teams[j], stale, newest);
    }
    forall other | other in Replay(d.sent) || other in stale - {id} ensures HasTeam(d.teams, other) {
      HasTeamDrop(c.teams, i, other);
    }
  }

  // ----- operations

  // From c to d every team that was mentioned has been settled.
  ghost predicate Leads(c: Chat, d: Chat, stale: set<Id>, newest: Id) {
    && |c.sent| <= |d.sent| && d.sent[..|c.sent|] == c.sent
    && Follows(d, stale - Mentioned(News(c, d)), newest)
  }

  lemma NewsIs(c: Chat, d: Chat, news: seq<Broadcast>)
    requires d.sent == c.sent + news
    ensures News(c, d) == news && d.sent[..|c.sent|] == c.sent
  {
  }

  lemma LeadsOn(c: Chat, d: Chat, e: Chat, stale: set<Id>, newest: Id, newest': Id)
    requires Leads(c, d, stale, newest) && Leads(d, e, stale - Mentioned(News(c, d)), newest')
    ensures Leads(c, e, stale, newest')
  {
    assert News(c, e) == News(c, d) + News(d, e);
    assert Mentioned(News(c, e)) == Mentioned(News(c, d)) + Mentioned(News(d, e)) by {
      assert forall b :: b in News(c, e) <==> b in News(c, d) || b in News(d, e);
    }
    assert stale - Mentioned(News(c, e)) == stale - Mentioned(News(c, d)) - Mentioned(News(d, e));
  }

  lemma StandsStill(c: Chat, stale: set<Id>, newest: Id)
    requires Follows(c, stale, newest)
    ensures Leads(c, c, stale, newest)
  {
    assert Mentioned(News(c, c)) == {};
    assert stale - {} == stale;
  }

  lemma SaysNothing(c: Chat, d: Chat, stale: set<Id>, newest: Id)
    requires d.sent == c.sent && Follows(d, stale, newest)
    ensures Leads(c, d, stale, newest)
  {
    assert Mentioned(News(c, d)) == {};
    assert stale - {} == stale;
  }

  lemma SaysOne(c: Chat, d: Chat, b: Broadcast, stale: set<Id>, newest: Id)
    requires d.sent == c.sent + [b] && Follows(d, stale - {b.team}, newest)
    ensures Leads(c, d, stale, newest)
  {
    NewsIs(c, d, [b]);
    assert Mentioned([b]) == {b.team};
  }

  lemma AnnounceLeads(c: Chat, i: nat, stale: set<Id>, newest: Id)
    requires Follows(c, stale, newest) && i < |c.teams|
    ensures Leads(c, Announce(c, i), stale, Settle(newest, c.teams[i].id))
  {
    var team := c.teams[i];
    assert c.teams[i := team] == c.teams;
    AnnouncedFollows(c, Announce(c, i), i, team, stale, newest);
    SaysOne(c, Announce(c, i), Announcement(team), stale, Settle(newest, team.id));
  }

  lemma AddLeads(c: Chat, i: nat, player: Id, stale: set<Id>, newest: Id)
    requires Follows(c, stale, newest) && i < |c.teams| && HasRoomFor(c.teams[i], player)
    requires c.teams[i].leader in c.players && player in c.players
    ensures Leads(c, AddMember(c, i, player), stale, Settle(newest, c.teams[i].id))
  {
    var d, team := AddMember(c, i, player), c.teams[i].(members := c.teams[i].members + [player]);
    AddKeepsWellFormed(c, i, player);
    AnnouncedFollows(c, d, i, team, stale, newest);
    SaysOne(c, d, Announcement(team), stale, Settle(newest, team.id));
  }

  lemma RemoveLeads(c: Chat, i: nat, player: Id, stale: set<Id>, newest: Id)
    requires Follows(c, stale, newest) && i < |c.teams| && player in c.teams[i].members
    ensures Leads(c, RemoveMember(c, i, player), stale, Settle(newest, c.teams[i].id))
  {
    var d, team := RemoveMember(c, i, player), c.teams[i];
    var rest, left := Without(team.members, player), AfterLeaving(team, player);
    RemoveKeepsWellFormed(c, i, player);
    if left == [] {
      TeamIsDeleted(c.sent, Update(team.id, team.loot, rest));
      assert d.sent == c.sent + [Update(team.id, team.loot, rest), Delete(team.id)];
      assert d.teams == c.teams[..i] + c.teams[i + 1..];
      DropFollows(c, d, i, stale, newest);
      NewsIs(c, d, [Update(team.id, team.loot, rest), Delete(team.id)]);
      assert Mentioned([Update(team.id, team.loot, rest), Delete(team.id)]) == {team.id};
    } else {
      assert d.sent == c.sent + [Announcement(left[0])];
      assert d.teams == c.teams[i := left[0]];
      AnnouncedFollows(c, d, i, left[0], stale, newest);
      SaysOne(c, d, Announcement(left[0]), stale, Settle(newest, team.id));
    }
  }

  lemma TeamIsDeleted(sent: seq<Broadcast>, b: Broadcast)
    ensures Replay(sent + [b, Delete(b.team)]) == Replay(sent) - {b.team}
  {
    ReplayNext(sent, b);
    ReplayNext(sent + [b], Delete(b.team));
    assert sent + [b] + [Delete(b.team)] == sent + [b, Delete(b.team)];
  }

  lemma DisbandLeads(c: Chat, i: nat, stale: set<Id>, newest: Id)
    requires Follows(c, stale, newest) && i < |c.teams|
    ensures Leads(c, Disband(c, i), stale, Settle(newest, c.teams[i].id))
  {
    var id := c.teams[i].id;
    ReplayNext(c.sent, Delete(id));
    DropFollows(c, Disband(c, i), i, stale, newest);
    SaysOne(c, Disband(c, i), Delete(id), stale, Settle(newest, id));
  }

  lemma LeaveLeads(c: Chat, player: Id, stale: set<Id>, newest: Id)
    requires Follows(c, stale, newest)
    requires forall i :: 0 <= i < |c.teams| && c.teams[i].id == newest ==> player !in c.teams[i].members
    ensures Leads(c, LeaveOldTeam(c, player), stale, newest)
  {
    var i := FindTeam(c.teams, player);
    if i < |c.teams| {
      RemoveLeads(c, i, player, stale, newest);
    } else {
      StandsStill(c, stale, newest);
    }
  }

  // Worlds have not heard of a new team and will not until it has a second member.
  lemma CreateLeads(c: Chat, leader: Id, isLocal: bool, stale: set<Id>, newest: Id)
    requires Follows(c, stale, NOBODY) && (newest == NOBODY || newest == c.counter + 1)
    ensures Leads(c, CreateTeam(c, leader, isLocal), stale, newest)
  {
    var d, team := CreateTeam(c, leader, isLocal), Founded(c, leader, isLocal);
    FoundingTeam(c, leader, isLocal);
    CreateKeepsWellFormed(c, leader, isLocal);
    var world := Replay(c.sent);
    assert !HasTeam(c.teams, team.id);
    ReplayNext(c.sent, Announcement(team));
    assert Replay(d.sent) == world;
    forall i | 0 <= i < |d.teams| ensures TracksTeam(world, d.teams[i], stale, newest) {
      assert i < |c.teams| ==> TracksTeam(world, c.teams[i], stale, NOBODY);
    }
    forall id | id in world || id in stale ensures HasTeam(d.teams, id) {
      var k :| 0 <= k < |c.teams| && c.teams[k].id == id;
      assert d.teams[k].id == id;
    }
    if leader in c.players {
      assert stale - {team.id} == stale;
      SaysOne(c, d, Announcement(team), stale, newest);
    } else {
      SaysNothing(c, d, stale, newest);
    }
  }

  // ----- a team assembled by a world

  ghost predicate NewestIsLast(c: Chat, d: Chat, players: seq<Id>) {
    && d.teams != []
    && var team := d.teams[|d.teams| - 1];
      team.id == c.counter + 1 && (forall x :: x in team.members ==> x in players)
  }

  lemma LeavingSparesNewest(c: Chat, d: Chat, players: seq<Id>, player: Id)
    requires NewestIsLast(c, d, players) && player !in players
    ensures NewestIsLast(c, LeaveOldTeam(d, player), players)
  {
    var i := FindTeam(d.teams, player);
    if i < |d.teams| {
      assert i < |d.teams| - 1;
    }
  }

  lemma JoiningNewestLeads(c: Chat, i: nat, player: Id, stale: set<Id>, newest: Id)
    requires Follows(c, stale, newest) && i < |c.teams| && c.teams[i].id == newest
    ensures Leads(c, AddMember(c, i, player), stale, newest)
  {
    var d, team := AddMember(c, i, player), c.teams[i];
    AddKeepsWellFormed(c, i, player);
    if !HasRoomFor(team, player) {
      StandsStill(c, stale, newest);
    } else if team.leader in c.players && player in c.players {
      AddLeads(c, i, player, stale, newest);
      Unfinish(d, i, stale - Mentioned(News(c, d)), newest);
    } else {
      SilentFollows(c, i, player, stale, newest);
      SaysNothing(c, d, stale, newest);
    }
  }

  lemma Unfinish(c: Chat, i: nat, stale: set<Id>, newest: Id)
    requires Follows(c, stale, NOBODY) && i < |c.teams| && c.teams[i].id == newest && newest !in stale
    ensures Follows(c, stale, newest)
  {
    RelabelFollows(c, i, c.teams[i], stale, NOBODY);
    assert c.teams[i := c.teams[i]] == c.teams;
    assert stale - {newest} == stale;
  }

  // As long as a team is being put together it is the last one and the worlds' idea of it does not matter.
  ghost predicate Assembling(c: Chat, d: Chat, players: seq<Id>, stale: set<Id>) {
    Leads(c, d, stale, c.counter + 1) && NewestIsLast(c, d, players)
  }

  lemma FoundedIsNewest(c: Chat, d: Chat, p: Id)
    requires d.counter == c.counter
    ensures NewestIsLast(c, CreateTeam(d, p, true), [p])
  {
    FoundingTeam(d, p, true);
  }

  lemma AssemblyStarts(c: Chat, p: Id, stale: set<Id>)
    requires Follows(c, stale, NOBODY)
    ensures Assembling(c, CreateTeam(LeaveOldTeam(c, p), p, true), [p], stale)
  {
    var d := LeaveOldTeam(c, p);
    var e, left := CreateTeam(d, p, true), stale - Mentioned(News(c, d));
    LeaveLeads(c, p, stale, NOBODY);
    CreateLeads(d, p, true, left, c.counter + 1);
    LeadsOn(c, d, e, stale, NOBODY, c.counter + 1);
    FoundedIsNewest(c, d, p);
  }

  lemma AssemblyLeave(c: Chat, d: Chat, before: seq<Id>, p: Id, stale: set<Id>)
    requires Assembling(c, d, before, stale) && p !in before
    ensures Assembling(c, LeaveOldTeam(d, p), before, stale)
  {
    LeavingSparesNewest(c, d, before, p);
    NewestHasNoStranger(c, d, before, p);
    LeaveLeads(d, p, stale - Mentioned(News(c, d)), c.counter + 1);
    LeadsOn(c, d, LeaveOldTeam(d, p), stale, c.counter + 1, c.counter + 1);
  }

  lemma NewestHasNoStranger(c: Chat, d: Chat, before: seq<Id>, p: Id)
    requires NewestIsLast(c, d, before) && WellFormed(d) && p !in before
    ensures forall i :: 0 <= i < |d.teams| && d.teams[i].id == c.counter + 1 ==> p !in d.teams[i].members
  {
    forall i | 0 <= i < |d.teams| && d.teams[i].id == c.counter + 1 ensures i == |d.teams| - 1 {
    }
  }

  lemma AssemblyJoin(c: Chat, d: Chat, before: seq<Id>, p: Id, stale: set<Id>)
    requires Assembling(c, d, before, stale)
    ensures Assembling(c, AddMember(d, |d.teams| - 1, p), before + [p], stale)
  {
    JoiningNewestLeads(d, |d.teams| - 1, p, stale - Mentioned(News(c, d)), c.counter + 1);
    LeadsOn(c, d, AddMember(d, |d.teams| - 1, p), stale, c.counter + 1, c.counter + 1);
  }

  lemma {:induction false} GatherLeads(c: Chat, players: seq<Id>, stale: set<Id>)
    requires Follows(c, stale, NOBODY) && players != [] && Distinct(players)
    ensures Assembling(c, Gather(c, players), players, stale)
    decreases |players|
  {
    var n := |players| - 1;
    var before, p := players[..n], players[n];
    assert players == before + [p];
    if n == 0 {
      assert Gather(c, before) == c;
      AssemblyStarts(c, p, stale);
    } else {
      GatherLeads(c, before, stale);
      AssemblyLeave(c, Gather(c, before), before, p, stale);
      AssemblyJoin(c, LeaveOldTeam(Gather(c, before), p), before, p, stale);
    }
  }

  lemma LabelLeads(d: Chat, i: nat, team: Team, stale: set<Id>, newest: Id)
    requires Follows(d, stale, newest) && i < |d.teams| && newest !in stale
    requires team.id == d.teams[i].id == newest && team.members == d.teams[i].members
    ensures Leads(d, d.(teams := d.teams[i := team]), stale, newest)
  {
    RelabelFollows(d, i, team, stale, newest);
    assert stale - {newest} == stale;
    SaysNothing(d, d.(teams := d.teams[i := team]), stale, newest);
  }

  lemma StatusLeads(d: Chat, i: nat, stale: set<Id>, newest: Id)
    requires Follows(d, stale, newest) && i < |d.teams| && d.teams[i].id == newest && newest !in stale
    ensures Leads(d, TeamStatusUpdate(d, i), stale, newest)
  {
    var e := TeamStatusUpdate(d, i);
    if e == d {
      StandsStill(d, stale, newest);
    } else {
      AnnounceLeads(d, i, stale, newest);
      Unfinish(e, i, stale - Mentioned(News(d, e)), newest);
    }
  }

  lemma ShareLootLeads(d: Chat, stale: set<Id>, newest: Id)
    requires Follows(d, stale, newest) && newest !in stale
    requires d.teams != [] && d.teams[|d.teams| - 1].id == newest
    ensures Leads(d, ShareLoot(d), stale, newest)
    ensures ShareLoot(d).teams != [] && ShareLoot(d).teams[|d.teams| - 1].id == newest
    ensures |ShareLoot(d).teams| == |d.teams|
  {
    var i := |d.teams| - 1;
    var e := SetLoot(d, i, 1);
    LabelLeads(d, i, e.teams[i], stale, newest);
    StatusLeads(e, i, stale - Mentioned(News(d, e)), newest);
    LeadsOn(d, e, ShareLoot(d), stale, newest, newest);
  }

  lemma ZoneLeads(d: Chat, zone: Zone, stale: set<Id>, newest: Id)
    requires Follows(d, stale, newest) && newest !in stale
    requires d.teams != [] && d.teams[|d.teams| - 1].id == newest
    ensures Leads(d, SetZone(d, |d.teams| - 1, zone), stale, newest)
  {
    var i := |d.teams| - 1;
    LabelLeads(d, i, SetZone(d, i, zone).teams[i], stale, newest);
  }

  // The last announcement of a new team tells the worlds all about it.
  lemma SettleInLeads(d: Chat, zone: Zone, stale: set<Id>, newest: Id)
    requires Follows(d, stale, newest) && newest !in stale
    requires d.teams != [] && d.teams[|d.teams| - 1].id == newest
    ensures Leads(d, SettleIn(d, zone), stale, NOBODY)
  {
    var i := |d.teams| - 1;
    var e := SetZone(d, i, zone);
    ZoneLeads(d, zone, stale, newest);
    AnnounceLeads(e, i, stale - Mentioned(News(d, e)), newest);
    LeadsOn(d, e, Announce(e, i), stale, newest, NOBODY);
  }

  lemma NewTeamIsNotStale(c: Chat, stale: set<Id>)
    requires Follows(c, stale, NOBODY)
    ensures c.counter + 1 !in stale
  {
    assert !HasTeam(c.teams, c.counter + 1);
  }

  lemma AssemblyEnds(c: Chat, d: Chat, players: seq<Id>, zone: Zone, stale: set<Id>)
    requires Assembling(c, d, players, stale) && c.counter + 1 !in stale
    ensures Leads(c, SettleIn(ShareLoot(d), zone), stale, NOBODY)
  {
    var newest, e := c.counter + 1, ShareLoot(d);
    ShareLootLeads(d, stale - Mentioned(News(c, d)), newest);
    LeadsOn(c, d, e, stale, newest, newest);
    SettleInLeads(e, zone, stale - Mentioned(News(c, e)), newest);
    LeadsOn(c, e, SettleIn(e, zone), stale, newest, NOBODY);
  }

  lemma TeamServerLeads(c: Chat, players: seq<Id>, zone: Zone, stale: set<Id>)
    requires Follows(c, stale, NOBODY) && players != [] && Distinct(players)
    ensures Leads(c, CreateTeamServer(c, players, zone), stale, NOBODY)
  {
    GatherLeads(c, players, stale);
    NewTeamIsNotStale(c, stale);
    AssemblyEnds(c, Gather(c, players), players, zone, stale);
  }

  // ----- packets

  lemma InviteResponseFollows(c: Chat, e: Event, stale: set<Id>)
    requires Follows(c, stale, NOBODY) && e.InviteResponse?
    ensures Follows(Step(c, e), stale - Mentioned(News(c, Step(c, e))) + SilentlyJoined(c, e), NOBODY)
  {
    var i := TargetTeam(c, e.player, e.leader);
    if e.declined || i == |c.teams| || !HasRoomFor(c.teams[i], e.player) {
      StandsStill(c, stale, NOBODY);
    } else if c.teams[i].leader in c.players && e.player in c.players {
      AddLeads(c, i, e.player, stale, NOBODY);
      assert SilentlyJoined(c, e) == {};
    } else {
      SilentResponseFollows(c, e, i, stale);
    }
  }

  lemma SilentResponseFollows(c: Chat, e: Event, i: nat, stale: set<Id>)
    requires Follows(c, stale, NOBODY) && e.InviteResponse? && !e.declined
    requires i == TargetTeam(c, e.player, e.leader) < |c.teams| && HasRoomFor(c.teams[i], e.player)
    requires !(c.teams[i].leader in c.players && e.player in c.players)
    ensures Follows(Step(c, e), stale - Mentioned(News(c, Step(c, e))) + SilentlyJoined(c, e), NOBODY)
  {
    AddKeepsWellFormed(c, i, e.player);
    SilentFollows(c, i, e.player, stale, NOBODY);
    assert News(c, Step(c, e)) == [];
    assert stale - Mentioned([]) == stale;
  }

  lemma LootOptionLeads(c: Chat, i: nat, option: int, stale: set<Id>)
    requires Follows(c, stale, NOBODY) && i < |c.teams|
    ensures Leads(c, Announce(TeamStatusUpdate(SetLoot(c, i, option), i), i), stale, NOBODY)
  {
    var id := c.teams[i].id;
    var c1 := SetLoot(c, i, option);
    var c2 := TeamStatusUpdate(c1, i);
    var d := Announce(c2, i);
    RelabelFollows(c, i, c1.teams[i], stale, NOBODY);
    StatusLeads(c1, i, stale - {id}, id);
    AnnounceLeads(c2, i, stale - {id} - Mentioned(News(c1, c2)), id);
    LeadsOn(c1, c2, d, stale - {id}, id, NOBODY);
    assert News(c, d) == News(c1, d);
    assert Announcement(c2.teams[i]) in News(c, d) by {
      assert News(c, d)[|News(c, d)| - 1] == Announcement(c2.teams[i]);
    }
    assert stale - {id} - Mentioned(News(c1, d)) == stale - Mentioned(News(c, d));
  }

  lemma StatusRequestLeads(c: Chat, player: Id, stale: set<Id>)
    requires Follows(c, stale, NOBODY)
    ensures Leads(c, HandleStatusRequest(c, player), stale, NOBODY)
  {
    var i := FindTeam(c.teams, player);
    if i == |c.teams| || player !in c.players {
      StandsStill(c, stale, NOBODY);
    } else if IsElsewhere(c.teams[i], c.players[player]) {
      RemoveLeads(c, i, player, stale, NOBODY);
    } else if |c.teams[i].members| <= 1 && !c.teams[i].isLocal {
      DisbandLeads(c, i, stale, NOBODY);
    } else {
      assert c.teams[i := c.teams[i].(loot := c.teams[i].loot)] == c.teams;
      LootOptionLeads(c, i, c.teams[i].loot, stale);
    }
  }

  lemma OtherPacketLeads(c: Chat, e: Event, stale: set<Id>)
    requires Follows(c, stale, NOBODY) && (e.Kick? || e.PromoteTo? || e.LootOption?)
    ensures Leads(c, Step(c, e), stale, NOBODY)
  {
    var i := FindTeam(c.teams, e.player);
    StandsStill(c, stale, NOBODY);
    if i < |c.teams| {
      match e
      case Kick(_, kicked) =>
        if kicked in c.teams[i].members {
          RemoveLeads(c, i, kicked, stale, NOBODY);
        }
      case PromoteTo(_, promoted) =>
        RelabelFollows(c, i, c.teams[i].(leader := promoted), stale, NOBODY);
        SaysNothing(c, Promote(c, i, promoted), stale, NOBODY);
      case LootOption(_, option) => LootOptionLeads(c, i, option, stale);
    }
  }

  lemma PlayersDoNotMatter(c: Chat, d: Chat, stale: set<Id>)
    requires Follows(c, stale, NOBODY) && d == c.(players := d.players)
    ensures Leads(c, d, stale, NOBODY)
  {
    SaysNothing(c, d, stale, NOBODY);
  }

  lemma InviteLeads(c: Chat, player: Id, stale: set<Id>)
    requires Follows(c, stale, NOBODY)
    ensures Leads(c, HandleInvite(c, player), stale, NOBODY)
  {
    if HandleInvite(c, player) == c {
      StandsStill(c, stale, NOBODY);
    } else {
      CreateLeads(c, player, false, stale, NOBODY);
    }
  }

  lemma StepLeads(c: Chat, e: Event, stale: set<Id>)
    requires Follows(c, stale, NOBODY) && Allowed(e) && !e.InviteResponse?
    ensures Leads(c, Step(c, e), stale, NOBODY)
  {
    match e
    case Login(player, zone) => PlayersDoNotMatter(c, Step(c, e), stale);
    case Logout(player) => PlayersDoNotMatter(c, Step(c, e), stale);
    case Invite(player) => InviteLeads(c, player, stale);
    case Leave(player) => LeaveLeads(c, player, stale, NOBODY);
    case StatusRequest(player) => StatusRequestLeads(c, player, stale);
    case TeamServer(players, zone) => TeamServerLeads(c, players, zone, stale);
    case _ => OtherPacketLeads(c, e, stale);
  }

  lemma StepFollows(c: Chat, e: Event, stale: set<Id>)
    requires Follows(c, stale, NOBODY) && Allowed(e)
    ensures Follows(Step(c, e), stale - Mentioned(News(c, Step(c, e))) + SilentlyJoined(c, e), NOBODY)
  {
    if e.InviteResponse? {
      InviteResponseFollows(c, e, stale);
    } else {
      StepLeads(c, e, stale);
      var left := stale - Mentioned(News(c, Step(c, e)));
      assert left + {} == left;
    }
  }

  // ----- every run

  lemma {:induction false} RunFollows(defaultLoot: int, events: seq<Event>)
    requires AllAllowed(events)
    ensures Follows(Run(Initial(defaultLoot), events), StaleAfter(Initial(defaultLoot), events), NOBODY)
    decreases |events|
  {
    if events != [] {
      var before := events[..|events| - 1];
      RunFollows(defaultLoot, before);
      StepFollows(Run(Initial(defaultLoot), before), events[|events| - 1], StaleAfter(Initial(defaultLoot), before));
    }
  }

  lemma {:induction false} ViewAt(teams: seq<Team>, counter: nat, id: Id)
    requires Orderly(teams, counter)
    ensures id in View(teams) ==> HasTeam(teams, id)
    ensures forall i :: 0 <= i < |teams| && teams[i].id == id ==>
      if |teams[i].members| <= 1 then id !in View(teams)
      else id in View(teams) && View(teams)[id] == Copy(teams[i].loot, teams[i].members)
  {
    if teams != [] {
      var rest := teams[1..];
      ViewAt(rest, counter, id);
      if HasTeam(rest, id) {
        var k :| 0 <= k < |rest| && rest[k].id == id;
        assert teams[k + 1].id == id;
      }
      forall i | 0 < i < |teams| && teams[i].id == id ensures rest[i - 1].id == id && teams[0].id != id {
      }
      assert teams[0].id == id ==> HasTeam(teams, id);
    }
  }

  predicate Agree(a: World, b: World, id: Id) {
    if id in a then id in b && a[id] == b[id] else id !in b
  }

  lemma CopyAgrees(world: World, c: Chat, stale: set<Id>, id: Id)
    requires WellFormed(c) && Tracks(world, c.teams, stale, NOBODY)
    ensures Agree(world, View(c.teams), id) <==> id !in stale
  {
    ViewAt(c.teams, c.counter, id);
    if HasTeam(c.teams, id) {
      var k :| 0 <= k < |c.teams| && c.teams[k].id == id;
      assert TracksTeam(world, c.teams[k], stale, NOBODY);
    }
  }

  lemma AgreeEverywhere(a: World, b: World)
    requires forall id :: Agree(a, b, id)
    ensures a == b
  {
    forall id ensures id in a <==> id in b {
      assert Agree(a, b, id);
    }
    forall id | id in a ensures a[id] == b[id] {
      assert Agree(a, b, id);
    }
  }

  lemma NothingStale(a: World, b: World, stale: set<Id>)
    requires a == b && forall id :: Agree(a, b, id) <==> id !in stale
    ensures stale == {}
  {
    forall id | id in stale ensures false {
    }
  }

  lemma CopyEquals(world: World, c: Chat, stale: set<Id>)
    requires WellFormed(c) && Tracks(world, c.teams, stale, NOBODY)
    ensures world == View(c.teams) <==> stale == {}
  {
    var view := View(c.teams);
    forall id ensures Agree(world, view, id) <==> id !in stale {
      CopyAgrees(world, c, stale, id);
    }
    if world == view {
      NothingStale(world, view, stale);
    } else if stale == {} {
      AgreeEverywhere(world, view);
    }
  }

  // A world that has received everything shows a team as it is unless, and only unless, the team is stale.
  lemma CopyAgreesUnlessStale(defaultLoot: int, events: seq<Event>, id: Id)
    requires AllAllowed(events)
    ensures var c := Run(Initial(defaultLoot), events);
      Agree(Replay(c.sent), View(c.teams), id) <==> id !in StaleAfter(Initial(defaultLoot), events)
  {
    var c := Run(Initial(defaultLoot), events);
    RunFollows(defaultLoot, events);
    CopyAgrees(Replay(c.sent), c, StaleAfter(Initial(defaultLoot), events), id);
  }

  lemma CopyIsExact(defaultLoot: int, events: seq<Event>)
    requires AllAllowed(events)
    ensures var c := Run(Initial(defaultLoot), events);
      Replay(c.sent) == View(c.teams) <==> StaleAfter(Initial(defaultLoot), events) == {}
  {
    var c := Run(Initial(defaultLoot), events);
    RunFollows(defaultLoot, events);
    CopyEquals(Replay(c.sent), c, StaleAfter(Initial(defaultLoot), events));
  }

  // Whoever joins does so while online and under a leader who is online.
  predicate JoinsAreSeen(c: Chat, events: seq<Event>) {
    forall k :: 0 <= k < |events| ==> SilentlyJoined(Run(c, events[..k]), events[k]) == {}
  }

  lemma {:induction false} SeenJoinsLeaveNothingStale(c: Chat, events: seq<Event>)
    requires JoinsAreSeen(c, events)
    ensures StaleAfter(c, events) == {}
    decreases |events|
  {
    if events != [] {
      var n := |events| - 1;
      forall k | 0 <= k < n ensures SilentlyJoined(Run(c, events[..n][..k]), events[..n][k]) == {} {
        assert events[..n][..k] == events[..k];
      }
      SeenJoinsLeaveNothingStale(c, events[..n]);
      assert SilentlyJoined(Run(c, events[..n]), events[n]) == {};
    }
  }

  lemma CopyIsExactWhenJoinsAreSeen(defaultLoot: int, events: seq<Event>)
    requires AllAllowed(events) && JoinsAreSeen(Initial(defaultLoot), events)
    ensures var c := Run(Initial(defaultLoot), events);
      Replay(c.sent) == View(c.teams)
  {
    SeenJoinsLeaveNothingStale(Initial(defaultLoot), events);
    CopyIsExact(defaultLoot, events);
  }
}