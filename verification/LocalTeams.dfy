/**
  What a team assembled by a world does to the teams that were there.

  The chat server takes the listed players one at a time, out of an old team and into the new one, promoting
  and disbanding on the way.  `Survivors` says in one go what that leaves of the old teams.
 */
module LocalTeams {
  import opened Basics
  import opened Teams
  import opened TeamInvariants

  function Minus(members: seq<Id>, gone: seq<Id>): (rest: seq<Id>)
    ensures forall x :: x in rest <==> x in members && x !in gone
  {
    if members == [] then []
    else (if members[0] in gone then [] else [members[0]]) + Minus(members[1..], gone)
  }

  // The leader once the players gone have left and rest remain.
  function LeaderOf(team: Team, gone: seq<Id>, rest: seq<Id>): Id
    requires rest != []
  {
    if team.leader in team.members && team.leader in gone then rest[0] else team.leader
  }

  // A team without the players gone; only a team that loses somebody can be disbanded.
  function Survive(team: Team, gone: seq<Id>): (left: seq<Team>)
    ensures |left| <= 1
  {
    var rest := Minus(team.members, gone);
    if rest == team.members then [team]
    else if |rest| <= 1 then []
    else [team.(members := rest, leader := LeaderOf(team, gone, rest))]
  }

  function Survivors(teams: seq<Team>, gone: seq<Id>): seq<Team> {
    if teams == [] then [] else Survive(teams[0], gone) + Survivors(teams[1..], gone)
  }

  function FirstFour(players: seq<Id>): seq<Id> {
    if |players| <= MAX_MEMBERS then players else players[..MAX_MEMBERS]
  }

  function Assembled(c: Chat, players: seq<Id>): Team
    requires players != []
  {
    Team(c.counter + 1, players[0], FirstFour(players), c.defaultLoot, true, Zone(0, 0))
  }

  // ----- one more player leaves one team

  lemma MinusFirst(first: Id, tail: seq<Id>, gone: seq<Id>)
    ensures Minus([first] + tail, gone) == if first in gone then Minus(tail, gone) else [first] + Minus(tail, gone)
  {
    assert ([first] + tail)[1..] == tail;
  }

  lemma {:induction false} MinusShrinks(members: seq<Id>, gone: seq<Id>)
    ensures |Minus(members, gone)| <= |members|
    ensures |Minus(members, gone)| == |members| ==> Minus(members, gone) == members
  {
    if members != [] {
      MinusShrinks(members[1..], gone);
      assert members == [members[0]] + members[1..];
    }
  }

  lemma {:induction false} MinusNothing(members: seq<Id>, gone: seq<Id>)
    requires forall x :: x in members ==> x !in gone
    ensures Minus(members, gone) == members
  {
    if members != [] {
      var first, tail := members[0], members[1..];
      assert members == [first] + tail && first !in gone;
      MinusNothing(tail, gone);
      MinusFirst(first, tail, gone);
    }
  }

  lemma WithoutFirst(first: Id, members: seq<Id>, player: Id)
    ensures Without([first] + members, player) ==
      if first == player then members else [first] + Without(members, player)
  {
    var all := [first] + members;
    assert all[0] == first && all[1..] == members;
  }

  lemma {:induction false} MinusOneMore(members: seq<Id>, gone: seq<Id>, player: Id)
    requires Distinct(members)
    ensures Minus(members, gone + [player]) == Without(Minus(members, gone), player)
  {
    if members != [] {
      var first, tail := members[0], members[1..];
      assert members == [first] + tail;
      DistinctCons(first, tail);
      MinusOneMore(tail, gone, player);
      MinusFirst(first, tail, gone);
      MinusFirst(first, tail, gone + [player]);
      if first !in gone {
        WithoutFirst(first, Minus(tail, gone), player);
      }
    }
  }

  lemma LeaderAfterOneMore(team: Team, gone: seq<Id>, player: Id, rest: seq<Id>, less: seq<Id>)
    requires rest == Minus(team.members, gone) && less == Without(rest, player) && less != []
    requires player in team.members
    ensures LeaderOf(team, gone + [player], less)
         == if LeaderOf(team, gone, rest) == player then less[0] else LeaderOf(team, gone, rest)
  {
    if rest[0] != player {
      FirstStays(rest, player);
    }
  }

  lemma SurviveOneMore(team: Team, gone: seq<Id>, player: Id)
    requires Fits(team) && player !in gone
    ensures var before, after := Survive(team, gone), Survive(team, gone + [player]);
      after == if before != [] && player in before[0].members then AfterLeaving(before[0], player) else before
  {
    var rest, less := Minus(team.members, gone), Minus(team.members, gone + [player]);
    MinusOneMore(team.members, gone, player);
    if player in team.members {
      MinusShrinks(team.members, gone);
      assert player in rest && player !in less;
      if |less| > 1 {
        LeaderAfterOneMore(team, gone, player, rest, less);
      }
    }
  }

  lemma FirstStays(members: seq<Id>, player: Id)
    requires members != [] && members[0] != player
    ensures Without(members, player) != [] && Without(members, player)[0] == members[0]
  {
  }

  // ----- one more player leaves

  // The i-th team replaced by what is left of it.
  function Splice(teams: seq<Team>, i: nat, left: seq<Team>): seq<Team>
    requires i < |teams|
  {
    teams[..i] + left + teams[i + 1..]
  }

  function Pluck(teams: seq<Team>, player: Id): seq<Team> {
    var i := FindTeam(teams, player);
    if i < |teams| then Splice(teams, i, AfterLeaving(teams[i], player)) else teams
  }

  lemma FindLater(first: Team, teams: seq<Team>, player: Id)
    requires player !in first.members
    ensures FindTeam([first] + teams, player) == 1 + FindTeam(teams, player)
  {
    var all := [first] + teams;
    assert all[0] == first && all[1..] == teams;
  }

  lemma SpliceLater(first: Team, teams: seq<Team>, i: nat, left: seq<Team>)
    requires i < |teams|
    ensures Splice([first] + teams, i + 1, left) == [first] + Splice(teams, i, left)
    ensures ([first] + teams)[i + 1] == teams[i]
  {
    var all := [first] + teams;
    assert all[..i + 1] == [first] + teams[..i];
    assert all[i + 2..] == teams[i + 1..];
  }

  lemma PluckLater(first: Team, teams: seq<Team>, player: Id)
    requires player !in first.members
    ensures Pluck([first] + teams, player) == [first] + Pluck(teams, player)
  {
    var i := FindTeam(teams, player);
    FindLater(first, teams, player);
    if i < |teams| {
      SpliceLater(first, teams, i, AfterLeaving(teams[i], player));
    }
  }

  lemma PluckFirst(first: seq<Team>, teams: seq<Team>, player: Id)
    requires |first| <= 1
    ensures Pluck(first + teams, player) ==
      if first != [] && player in first[0].members then AfterLeaving(first[0], player) + teams
      else first + Pluck(teams, player)
  {
    var all := first + teams;
    if first == [] {
      assert all == teams;
    } else if player in first[0].members {
      assert all[..0] == [] && all[1..] == teams;
    } else {
      assert first == [first[0]];
      PluckLater(first[0], teams, player);
    }
  }

  lemma PluckNothing(teams: seq<Team>, player: Id)
    requires forall t :: t in teams ==> player !in t.members
    ensures Pluck(teams, player) == teams
  {
    if FindTeam(teams, player) < |teams| {
      assert false;
    }
  }

  lemma SurviveIgnoresStranger(team: Team, gone: seq<Id>, player: Id)
    requires Fits(team) && player !in team.members && player !in gone
    ensures Survive(team, gone + [player]) == Survive(team, gone)
    ensures forall t :: t in Survive(team, gone) ==> player !in t.members
  {
    SurviveOneMore(team, gone, player);
  }

  lemma {:induction false} SurvivorsIgnoreStrangers(teams: seq<Team>, gone: seq<Id>, player: Id)
    requires forall t :: t in teams ==> Fits(t) && player !in t.members
    requires player !in gone
    ensures Survivors(teams, gone + [player]) == Survivors(teams, gone)
    ensures forall t :: t in Survivors(teams, gone) ==> player !in t.members
  {
    if teams != [] {
      SurviveIgnoresStranger(teams[0], gone, player);
      SurvivorsIgnoreStrangers(teams[1..], gone, player);
    }
  }

  lemma {:induction false} PluckSurvivors(teams: seq<Team>, gone: seq<Id>, player: Id, newest: seq<Team>)
    requires Apart(teams) && (forall t :: t in teams ==> Fits(t))
    requires player !in gone && (forall t :: t in newest ==> player !in t.members)
    ensures Pluck(Survivors(teams, gone) + newest, player) == Survivors(teams, gone + [player]) + newest
  {
    if teams == [] {
      PluckNothing(newest, player);
      assert [] + newest == newest;
    } else {
      var more := gone + [player];
      var first, rest := Survive(teams[0], gone), Survivors(teams[1..], gone);
      var first', rest' := Survive(teams[0], more), Survivors(teams[1..], more);
      if player in teams[0].members {
        PluckStrangers(teams, gone, player, newest);
      } else {
        PluckSurvivors(teams[1..], gone, player, newest);
      }
      assert Pluck(rest + newest, player) == rest' + newest;
      SurviveOneMore(teams[0], gone, player);
      assert player in teams[0].members ==> rest' == rest;
      PluckJoin(first, rest, first', rest', newest, player);
    }
  }

  lemma PluckJoin(first: seq<Team>, rest: seq<Team>, first': seq<Team>, rest': seq<Team>, newest: seq<Team>, player: Id)
    requires |first| <= 1
    requires var hit := first != [] && player in first[0].members;
      && first' == (if hit then AfterLeaving(first[0], player) else first)
      && (hit ==> rest' == rest)
    requires Pluck(rest + newest, player) == rest' + newest
    ensures Pluck((first + rest) + newest, player) == (first' + rest') + newest
  {
    PluckFirst(first, rest + newest, player);
    Regroup(first, rest, newest);
    Regroup(first', rest', newest);
  }

  lemma Regroup(a: seq<Team>, b: seq<Team>, c: seq<Team>)
    ensures (a + b) + c == a + (b + c)
  {
  }

  lemma PluckStrangers(teams: seq<Team>, gone: seq<Id>, player: Id, newest: seq<Team>)
    requires Apart(teams) && (forall t :: t in teams ==> Fits(t)) && teams != [] && player in teams[0].members
    requires player !in gone && (forall t :: t in newest ==> player !in t.members)
    ensures Pluck(Survivors(teams[1..], gone) + newest, player) == Survivors(teams[1..], gone) + newest
    ensures Survivors(teams[1..], gone + [player]) == Survivors(teams[1..], gone)
  {
    forall t | t in teams[1..] ensures player !in t.members {
      var j :| 1 <= j < |teams| && teams[j] == t;
    }
    SurvivorsIgnoreStrangers(teams[1..], gone, player);
    PluckNothing(Survivors(teams[1..], gone) + newest, player);
  }

  // ----- the whole list

  lemma LeavingIsPlucking(c: Chat, player: Id)
    ensures LeaveOldTeam(c, player).teams == Pluck(c.teams, player)
    ensures LeaveOldTeam(c, player).counter == c.counter && LeaveOldTeam(c, player).players == c.players
    ensures LeaveOldTeam(c, player).defaultLoot == c.defaultLoot
  {
  }

  lemma {:induction false} SurvivorsOfNothing(teams: seq<Team>)
    ensures Survivors(teams, []) == teams
  {
    if teams != [] {
      MinusNothing(teams[0].members, []);
      SurvivorsOfNothing(teams[1..]);
    }
  }

  // The players taken so far are out of the old teams and, up to four of them, in the new one.
  lemma {:induction false} GatherMeans(c: Chat, players: seq<Id>)
    requires WellFormed(c) && Apart(c.teams) && players != [] && Distinct(players)
    ensures Gathered(c, Gather(c, players), players)
    decreases |players|
  {
    var n := |players| - 1;
    var before, p := players[..n], players[n];
    assert before + [p] == players;
    if n == 0 {
      assert Gather(c, players) == CreateTeam(LeaveOldTeam(c, p), p, true);
      StartTeam(c, p);
      assert players == [p];
    } else {
      GatherMeans(c, before);
      JoinNext(c, Gather(c, before), before, p);
    }
  }

  lemma StartTeam(c: Chat, p: Id)
    requires WellFormed(c) && Apart(c.teams)
    ensures Gathered(c, CreateTeam(LeaveOldTeam(c, p), p, true), [p])
  {
    SurvivorsOfNothing(c.teams);
    LeavingIsPlucking(c, p);
    PluckSurvivors(c.teams, [], p, []);
    assert [] + [p] == [p];
    assert Survivors(c.teams, [p]) + [] == Survivors(c.teams, [p]) && c.teams + [] == c.teams;
    FoundingTeam(LeaveOldTeam(c, p), p, true);
  }

  lemma JoinNewest(e: Chat, kept: seq<Team>, team: Team, p: Id)
    requires e.teams == kept + [team]
    ensures var members := if HasRoomFor(team, p) then team.members + [p] else team.members;
      AddMember(e, |kept|, p).teams == kept + [team.(members := members)]
    ensures AddMember(e, |kept|, p).counter == e.counter && AddMember(e, |kept|, p).players == e.players
  {
    var joined := team.(members := team.members + [p]);
    assert (kept + [team])[|kept| := joined] == kept + [joined];
  }

  predicate Gathered(c: Chat, d: Chat, players: seq<Id>)
    requires players != []
  {
    && d.teams == Survivors(c.teams, players) + [Assembled(c, players)]
    && d.counter == c.counter + 1 && d.players == c.players
  }

  lemma JoinNext(c: Chat, d: Chat, before: seq<Id>, p: Id)
    requires WellFormed(c) && Apart(c.teams) && before != [] && p !in before
    requires Gathered(c, d, before)
    ensures var e := LeaveOldTeam(d, p);
      e.teams != [] && Gathered(c, AddMember(e, |e.teams| - 1, p), before + [p])
  {
    var kept, team := Survivors(c.teams, before + [p]), Assembled(c, before);
    PluckSurvivors(c.teams, before, p, [team]);
    LeavingIsPlucking(d, p);
    JoinNewest(LeaveOldTeam(d, p), kept, team, p);
    FirstFourAndOneMore(before, p);
  }

  lemma FirstFourAndOneMore(before: seq<Id>, p: Id)
    requires before != []
    ensures (before + [p])[0] == before[0]
    ensures FirstFour(before + [p]) == if |before| < MAX_MEMBERS then FirstFour(before) + [p] else FirstFour(before)
  {
  }

  // The new team holds the first four players in order and shares loot freely; the old teams are what
  // leaving all at once would make of them, in their old order.
  predicate TookOver(c: Chat, e: Chat, players: seq<Id>, zone: Zone)
    requires players != []
  {
    && e.teams == Survivors(c.teams, players) + [Team(c.counter + 1, players[0], FirstFour(players), 1, true, zone)]
    && e.counter == c.counter + 1 && e.players == c.players
  }

  lemma TeamServerMeans(c: Chat, players: seq<Id>, zone: Zone)
    requires WellFormed(c) && Apart(c.teams) && players != [] && Distinct(players)
    ensures TookOver(c, CreateTeamServer(c, players, zone), players, zone)
  {
    GatherMeans(c, players);
    FinishTeam(c, Gather(c, players), players, zone);
  }

  lemma FinishTeam(c: Chat, d: Chat, players: seq<Id>, zone: Zone)
    requires players != [] && Gathered(c, d, players)
    ensures TookOver(c, SettleIn(ShareLoot(d), zone), players, zone)
  {
    var kept, team := Survivors(c.teams, players), Assembled(c, players);
    ReplaceLast(kept, team, team.(loot := 1));
    ReplaceLast(kept, team.(loot := 1), team.(loot := 1, zone := zone));
  }

  // The worlds are told of the new team at the end, and once more just before that if its leader is online.
  lemma TeamServerAnnounces(c: Chat, players: seq<Id>, zone: Zone)
    requires WellFormed(c) && Apart(c.teams) && players != [] && Distinct(players)
    ensures var sent := CreateTeamServer(c, players, zone).sent;
      var n, news := |sent|, Update(c.counter + 1, 1, if |players| <= 4 then players else players[..4]);
      n > 0 && sent[n - 1] == news && (players[0] in c.players ==> n > 1 && sent[n - 2] == news)
  {
    GatherMeans(c, players);
    FinishAnnounces(c, Gather(c, players), players, zone);
  }

  lemma FinishAnnounces(c: Chat, d: Chat, players: seq<Id>, zone: Zone)
    requires players != [] && Gathered(c, d, players)
    ensures var news := [Update(c.counter + 1, 1, FirstFour(players))];
      SettleIn(ShareLoot(d), zone).sent == d.sent + (if players[0] in c.players then news else []) + news
  {
    var kept, team := Survivors(c.teams, players), Assembled(c, players);
    ReplaceLast(kept, team, team.(loot := 1));
    ReplaceLast(kept, team.(loot := 1), team.(loot := 1, zone := zone));
    assert d.sent + [] == d.sent;
  }

  lemma ReplaceLast(kept: seq<Team>, team: Team, other: Team)
    ensures (kept + [team])[|kept| := other] == kept + [other] && (kept + [team])[|kept|] == team
  {
  }

  // ----- the teams stay apart

  // Every survivor is a team from before, cut down.
  lemma {:induction false} SurvivorsShrink(teams: seq<Team>, gone: seq<Id>, k: nat) returns (i: nat)
    requires k < |Survivors(teams, gone)|
    ensures i < |teams|
    ensures forall x :: x in Survivors(teams, gone)[k].members <==> x in teams[i].members && x !in gone
    ensures [Survivors(teams, gone)[k]] == Survive(teams[i], gone)
  {
    var first := Survive(teams[0], gone);
    if k < |first| {
      i := 0;
    } else {
      var j := SurvivorsShrink(teams[1..], gone, k - |first|);
      i := j + 1;
    }
  }

  lemma {:induction false} SurvivorsStayApart(teams: seq<Team>, gone: seq<Id>)
    requires Apart(teams)
    ensures Apart(Survivors(teams, gone))
  {
    if teams != [] {
      var first, rest := Survive(teams[0], gone), Survivors(teams[1..], gone);
      SurvivorsStayApart(teams[1..], gone);
      forall j, x | 0 <= j < |rest| && first != [] && x in first[0].members ensures x !in rest[j].members {
        var i := SurvivorsShrink(teams[1..], gone, j);
        assert x in teams[0].members && teams[1..][i] == teams[i + 1];
      }
    }
  }

  lemma TeamServerKeepsApart(c: Chat, players: seq<Id>, zone: Zone)
    requires WellFormed(c) && Apart(c.teams) && players != [] && Distinct(players)
    ensures Apart(CreateTeamServer(c, players, zone).teams)
  {
    TeamServerMeans(c, players, zone);
    SurvivorsStayApart(c.teams, players);
    var kept := Survivors(c.teams, players);
    forall k, x | 0 <= k < |kept| && x in kept[k].members ensures x !in FirstFour(players) {
      var i := SurvivorsShrink(c.teams, players, k);
    }
  }

  // From teams that are apart, every packet keeps them apart but for the acceptance that joins a second team.
  lemma StepKeepsApart(c: Chat, e: Event)
    requires WellFormed(c) && Apart(c.teams) && Allowed(e)
    ensures Apart(Step(c, e).teams) <==> !JoinsSecondTeam(c, e)
  {
    match e
    case Login(_, _) =>
    case Logout(_) =>
    case Invite(player) =>
      if FindTeam(c.teams, player) == |c.teams| {
        CreateKeepsApart(c, player, false);
      }
    case InviteResponse(player, _, leader) => InviteResponseKeepsApart(c, e);
    case TeamServer(players, zone) => TeamServerKeepsApart(c, players, zone);
    case _ => OwnTeamPacketKeepsApart(c, e);
  }

  lemma InviteResponseKeepsApart(c: Chat, e: Event)
    requires Apart(c.teams) && e.InviteResponse?
    ensures Apart(Step(c, e).teams) <==> !JoinsSecondTeam(c, e)
  {
    var i := TargetTeam(c, e.player, e.leader);
    if i < |c.teams| {
      AddKeepsApart(c, i, e.player);
    }
  }

  lemma OwnTeamPacketKeepsApart(c: Chat, e: Event)
    requires Apart(c.teams)
    requires e.Leave? || e.Kick? || e.PromoteTo? || e.LootOption? || e.StatusRequest?
    ensures Apart(Step(c, e).teams)
  {
    var i := FindTeam(c.teams, e.player);
    if i < |c.teams| {
      match e
      case Leave(player) => RemoveKeepsApart(c, i, player);
      case Kick(_, kicked) => RemoveKeepsApart(c, i, kicked);
      case PromoteTo(_, promoted) => ApartReplace(c.teams, i, c.teams[i].(leader := promoted));
      case LootOption(_, option) => ApartReplace(c.teams, i, c.teams[i].(loot := option));
      case StatusRequest(player) =>
        RemoveKeepsApart(c, i, player);
        ApartDrop(c.teams, i);
    }
  }

  // No event of the run is an acceptance that joins a second team.
  predicate NobodyJoinsTwice(c: Chat, events: seq<Event>) {
    forall k :: 0 <= k < |events| ==> !JoinsSecondTeam(Run(c, events[..k]), events[k])
  }

  lemma {:induction false} RunKeepsApart(defaultLoot: int, events: seq<Event>)
    requires AllAllowed(events) && NobodyJoinsTwice(Initial(defaultLoot), events)
    ensures Apart(Run(Initial(defaultLoot), events).teams)
    decreases |events|
  {
    if events != [] {
      var n := |events| - 1;
      var before := events[..n];
      forall k | 0 <= k < |before| ensures !JoinsSecondTeam(Run(Initial(defaultLoot), before[..k]), before[k]) {
        assert before[..k] == events[..k];
      }
      RunKeepsApart(defaultLoot, before);
      RunKeepsWellFormed(Initial(defaultLoot), before);
      StepKeepsApart(Run(Initial(defaultLoot), before), events[n]);
    }
  }
}
