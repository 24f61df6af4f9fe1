/**
  The chat server's teams (dChatServer/PlayerContainer.cpp, dChatServer/ChatPacketHandler.cpp).

  `Step` is what one packet does to the teams and which broadcasts it sends to the worlds.  The classes in
  module PlayerContainer are proved to do exactly this.
 */
module Teams {
  import opened Basics

  // A player or team identifier; zero is nobody.
  type Id = int

  const NOBODY: Id := 0
  const MAX_MEMBERS: nat := 4

  datatype Zone = Zone(mapId: int, clone: int)

  datatype Team = Team(id: Id, leader: Id, members: seq<Id>, loot: int, isLocal: bool, zone: Zone)

  datatype Broadcast =
    | Update(team: Id, loot: int, members: seq<Id>)
    | Delete(team: Id)

  // players holds the zone of everyone who is online; sent is every broadcast so far.
  datatype Chat = Chat(
    teams: seq<Team>,
    counter: nat,
    players: map<Id, Zone>,
    sent: seq<Broadcast>,
    defaultLoot: int
  )

  function Initial(defaultLoot: int): Chat {
    Chat([], 0, map[], [], defaultLoot)
  }

  // ----- operations of the container

  // The position of the first team with this member, or |teams|.
  function FindTeam(teams: seq<Team>, player: Id): (i: nat)
    ensures i <= |teams|
    ensures forall j :: 0 <= j < i ==> player !in teams[j].members
    ensures i < |teams| ==> player in teams[i].members
  {
    if teams == [] || player in teams[0].members then 0 else 1 + FindTeam(teams[1..], player)
  }

  function Announcement(team: Team): Broadcast {
    Update(team.id, team.loot, team.members)
  }

  function Announce(c: Chat, i: nat): Chat
    requires i < |c.teams|
  {
    c.(sent := c.sent + [Announcement(c.teams[i])])
  }

  predicate HasRoomFor(team: Team, player: Id) {
    |team.members| < MAX_MEMBERS && player !in team.members
  }

  // Nobody is told when the leader or the newcomer is offline.
  function AddMember(c: Chat, i: nat, player: Id): Chat
    requires i < |c.teams|
  {
    var team := c.teams[i];
    if !HasRoomFor(team, player) then c
    else
      var joined := c.(teams := c.teams[i := team.(members := team.members + [player])]);
      if team.leader in c.players && player in c.players then Announce(joined, i) else joined
  }

  function Without(members: seq<Id>, player: Id): (rest: seq<Id>)
    ensures player !in members ==> rest == members
    ensures player in members ==> |rest| == |members| - 1
    ensures forall x :: x in rest ==> x in members
    ensures forall x :: x in members && x != player ==> x in rest
  {
    if members == [] then []
    else if members[0] == player then members[1..]
    else [members[0]] + Without(members[1..], player)
  }

  // What is left of a team after a member leaves: nothing, or a team of at least two.
  function AfterLeaving(team: Team, player: Id): (left: seq<Team>)
    ensures |left| <= 1
  {
    var rest := Without(team.members, player);
    if |rest| <= 1 then []
    else [team.(members := rest, leader := if player == team.leader then rest[0] else team.leader)]
  }

  function LeaveBroadcasts(team: Team, player: Id): seq<Broadcast> {
    var rest := Without(team.members, player);
    [Update(team.id, team.loot, rest)] + if |rest| <= 1 then [Delete(team.id)] else []
  }

  function RemoveMember(c: Chat, i: nat, player: Id): Chat
    requires i < |c.teams|
  {
    var team := c.teams[i];
    if player !in team.members then c
    else c.(teams := c.teams[..i] + AfterLeaving(team, player) + c.teams[i + 1..],
            sent := c.sent + LeaveBroadcasts(team, player))
  }

  function Disband(c: Chat, i: nat): Chat
    requires i < |c.teams|
  {
    c.(teams := c.teams[..i] + c.teams[i + 1..], sent := c.sent + [Delete(c.teams[i].id)])
  }

  function Promote(c: Chat, i: nat, leader: Id): Chat
    requires i < |c.teams|
  {
    c.(teams := c.teams[i := c.teams[i].(leader := leader)])
  }

  function TeamStatusUpdate(c: Chat, i: nat): Chat
    requires i < |c.teams|
  {
    if c.teams[i].leader in c.players then Announce(c, i) else c
  }

  function CreateTeam(c: Chat, leader: Id, isLocal: bool): (d: Chat)
    ensures |d.teams| == |c.teams| + 1
  {
    var team := Team(c.counter + 1, leader, [], c.defaultLoot, isLocal, Zone(0, 0));
    AddMember(c.(counter := c.counter + 1, teams := c.teams + [team]), |c.teams|, leader)
  }

  function Founded(c: Chat, leader: Id, isLocal: bool): Team {
    Team(c.counter + 1, leader, [leader], c.defaultLoot, isLocal, Zone(0, 0))
  }

  lemma FoundingTeam(c: Chat, leader: Id, isLocal: bool)
    ensures var team := Founded(c, leader, isLocal);
      CreateTeam(c, leader, isLocal) == c.(
        counter := c.counter + 1,
        teams := c.teams + [team],
        sent := c.sent + if leader in c.players then [Announcement(team)] else [])
  {
    var team := Founded(c, leader, isLocal);
    assert (c.teams + [team.(members := [])])[|c.teams| := team] == c.teams + [team];
    assert [] + [leader] == [leader];
    assert c.sent + [] == c.sent;
  }

  // ----- a team assembled by a world for an instance

  function LeaveOldTeam(c: Chat, player: Id): Chat {
    var i := FindTeam(c.teams, player);
    if i < |c.teams| then RemoveMember(c, i, player) else c
  }

  function JoinLast(c: Chat, player: Id): Chat {
    if c.teams == [] then c else AddMember(c, |c.teams| - 1, player)
  }

  // The first player founds the new team; the others join it, being the last one, one by one.
  function GatherOne(c: Chat, isFirst: bool, player: Id): Chat {
    var d := LeaveOldTeam(c, player);
    if isFirst then CreateTeam(d, player, true) else JoinLast(d, player)
  }

  function Gather(c: Chat, players: seq<Id>): Chat
    decreases |players|
  {
    if players == [] then c
    else
      var n := |players| - 1;
      GatherOne(Gather(c, players[..n]), n == 0, players[n])
  }

  function SetLoot(c: Chat, i: nat, loot: int): Chat
    requires i < |c.teams|
  {
    c.(teams := c.teams[i := c.teams[i].(loot := loot)])
  }

  function SetZone(c: Chat, i: nat, zone: Zone): Chat
    requires i < |c.teams|
  {
    c.(teams := c.teams[i := c.teams[i].(zone := zone)])
  }

  // Loot is shared freely in the new team.
  function ShareLoot(d: Chat): Chat {
    if d.teams == [] then d else TeamStatusUpdate(SetLoot(d, |d.teams| - 1, 1), |d.teams| - 1)
  }

  function CreateLocalTeam(c: Chat, players: seq<Id>): Chat {
    ShareLoot(Gather(c, players))
  }

  function SettleIn(d: Chat, zone: Zone): Chat {
    if d.teams == [] then d else Announce(SetZone(d, |d.teams| - 1, zone), |d.teams| - 1)
  }

  function CreateTeamServer(c: Chat, players: seq<Id>, zone: Zone): Chat {
    SettleIn(CreateLocalTeam(c, players), zone)
  }

  // ----- packets

  // Names in packets are resolved before they get here; an unknown name is NOBODY.
  datatype Event =
    | Login(player: Id, zone: Zone)
    | Logout(player: Id)
    | Invite(player: Id)
    | InviteResponse(player: Id, declined: bool, leader: Id)
    | Leave(player: Id)
    | Kick(player: Id, kicked: Id)
    | PromoteTo(player: Id, promoted: Id)
    | LootOption(player: Id, option: int)
    | StatusRequest(player: Id)
    | TeamServer(players: seq<Id>, zone: Zone)

  // A world never sends an empty list or lists somebody twice.
  predicate Allowed(e: Event) {
    e.TeamServer? ==> e.players != [] && Distinct(e.players)
  }

  function HandleInvite(c: Chat, player: Id): Chat {
    if player in c.players && FindTeam(c.teams, player) == |c.teams| then CreateTeam(c, player, false) else c
  }

  // The invited player joins the leader's team or, failing that, one the player is in already.
  function TargetTeam(c: Chat, player: Id, leader: Id): (i: nat)
    ensures i <= |c.teams|
  {
    var i := FindTeam(c.teams, leader);
    if i < |c.teams| then i else FindTeam(c.teams, player)
  }

  function HandleInviteResponse(c: Chat, player: Id, declined: bool, leader: Id): Chat {
    var i := TargetTeam(c, player, leader);
    if !declined && i < |c.teams| then AddMember(c, i, player) else c
  }

  predicate LeadsTeam(c: Chat, i: nat, player: Id) {
    i < |c.teams| && c.teams[i].leader == player
  }

  function HandleKick(c: Chat, player: Id, kicked: Id): Chat {
    var i := FindTeam(c.teams, player);
    if kicked != NOBODY && LeadsTeam(c, i, player) && kicked != player then RemoveMember(c, i, kicked) else c
  }

  function HandlePromote(c: Chat, player: Id, promoted: Id): Chat {
    var i := FindTeam(c.teams, player);
    if promoted in c.players && LeadsTeam(c, i, player) then Promote(c, i, promoted) else c
  }

  function HandleLootOption(c: Chat, player: Id, option: int): Chat {
    var i := FindTeam(c.teams, player);
    if LeadsTeam(c, i, player) then Announce(TeamStatusUpdate(SetLoot(c, i, option), i), i) else c
  }

  predicate IsElsewhere(team: Team, zone: Zone) {
    team.isLocal && zone.mapId != team.zone.mapId && zone.clone != team.zone.clone
  }

  function HandleStatusRequest(c: Chat, player: Id): Chat {
    var i := FindTeam(c.teams, player);
    if i == |c.teams| || player !in c.players then c
    else if IsElsewhere(c.teams[i], c.players[player]) then RemoveMember(c, i, player)
    else if |c.teams[i].members| <= 1 && !c.teams[i].isLocal then Disband(c, i)
    else Announce(TeamStatusUpdate(c, i), i)
  }

  function Step(c: Chat, e: Event): Chat {
    match e
    case Login(player, zone) => if player == NOBODY then c else c.(players := c.players[player := zone])
    case Logout(player) => c.(players := c.players - {player})
    case Invite(player) => HandleInvite(c, player)
    case InviteResponse(player, declined, leader) => HandleInviteResponse(c, player, declined, leader)
    case Leave(player) => LeaveOldTeam(c, player)
    case Kick(player, kicked) => HandleKick(c, player, kicked)
    case PromoteTo(player, promoted) => HandlePromote(c, player, promoted)
    case LootOption(player, option) => HandleLootOption(c, player, option)
    case StatusRequest(player) => HandleStatusRequest(c, player)
    case TeamServer(players, zone) => CreateTeamServer(c, players, zone)
  }

  // The state after a run; the last event comes last.
  function Run(c: Chat, events: seq<Event>): Chat
    decreases |events|
  {
    if events == [] then c else Step(Run(c, events[..|events| - 1]), events[|events| - 1])
  }

  predicate AllAllowed(events: seq<Event>) {
    forall k :: 0 <= k < |events| ==> Allowed(events[k])
  }
}
