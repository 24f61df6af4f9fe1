/**
  Short runs of the chat server after which a player is in two teams, a team is led by an outsider, and the
  copies that the worlds keep are out of date.
 */
module TeamFailures {
  import opened Teams
  import opened TeamInvariants
  import opened TeamReplica

  const HERE: Zone := Zone(1200, 0)
  const START: Chat := Initial(1)

  function Single(id: Id, leader: Id): Team {
    Team(id, leader, [leader], 1, false, Zone(0, 0))
  }

  lemma RunNext(events: seq<Event>, e: Event)
    ensures Run(START, events + [e]) == Step(Run(START, events), e)
  {
    assert (events + [e])[..|events|] == events;
  }

  // One player logs in and founds a team.
  lemma OneFounds() returns (events: seq<Event>)
    ensures AllAllowed(events)
    ensures Run(START, events)
         == START.(players := map[1 := HERE], counter := 1, teams := [Single(1, 1)], sent := [Update(1, 1, [1])])
  {
    var in1 := START.(players := map[1 := HERE]);
    events := [] + [Login(1, HERE)] + [Invite(1)];
    RunNext([], Login(1, HERE));
    RunNext([] + [Login(1, HERE)], Invite(1));
    assert START.players[1 := HERE] == in1.players;
    FoundingTeam(in1, 1, false);
    assert [] + [Single(1, 1)] == [Single(1, 1)] && [] + [Update(1, 1, [1])] == [Update(1, 1, [1])];
  }

  // The second player joins while offline: every world goes on without the team.
  lemma OfflineJoinLeavesCopyBehind() returns (events: seq<Event>)
    ensures AllAllowed(events)
    ensures var c := Run(START, events);
      Replay(c.sent) == map[] && View(c.teams) == map[1 := Copy(1, [1, 2])] && 1 in StaleAfter(START, events)
  {
    var before := OneFounds();
    var c, e := Run(START, before), InviteResponse(2, false, 1);
    RunNext(before, e);
    events := before + [e];
    assert FindTeam(c.teams, 1) == 0 && TargetTeam(c, 2, 1) == 0;
    var team := Single(1, 1).(members := [1, 2]);
    assert Single(1, 1).members + [2] == [1, 2];
    assert Run(START, events).teams == [team] && Run(START, events).sent == c.sent;
    ReplayNext([], Update(1, 1, [1]));
    assert [] + [Update(1, 1, [1])] == c.sent;
    assert View([team][1..]) == map[];
    assert events[..|before|] == before && events[|before|] == e;
  }

  // The leader promotes a player who is online and in no team.
  lemma OutsiderLeads() returns (events: seq<Event>)
    ensures AllAllowed(events) && !LeadersAreMembers(Run(START, events).teams)
  {
    var before := OneFounds();
    RunNext(before, Login(2, HERE));
    RunNext(before + [Login(2, HERE)], PromoteTo(1, 2));
    events := before + [Login(2, HERE)] + [PromoteTo(1, 2)];
    var c := Run(START, before + [Login(2, HERE)]);
    assert FindTeam(c.teams, 1) == 0 && 2 in c.players;
    assert Run(START, events).teams[0] == Single(1, 1).(leader := 2);
  }

  lemma TwoFound() returns (events: seq<Event>)
    ensures AllAllowed(events)
    ensures Run(START, events).teams == [Single(1, 1), Single(2, 2)]
  {
    var before := OneFounds();
    RunNext(before, Login(2, HERE));
    RunNext(before + [Login(2, HERE)], Invite(2));
    events := before + [Login(2, HERE)] + [Invite(2)];
    var c := Run(START, before + [Login(2, HERE)]);
    assert c.teams == [Single(1, 1)] && 2 in c.players;
    assert FindTeam(c.teams, 2) == 1;
    FoundingTeam(c, 2, false);
  }

  // The second player founds a team too and then accepts an invitation to the first one.
  lemma SecondTeamIsJoined() returns (events: seq<Event>)
    ensures AllAllowed(events) && !Apart(Run(START, events).teams)
  {
    var before := TwoFound();
    var c, e := Run(START, before), InviteResponse(2, false, 1);
    RunNext(before, e);
    events := before + [e];
    assert TargetTeam(c, 2, 1) == 0;
    var after := Run(START, events).teams;
    assert 2 in after[0].members && 2 in after[1].members;
  }
}
