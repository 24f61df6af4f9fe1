/**
  Where the callbacks of a zone transfer lead: to a world that the master tracked, had queued a request for and
  heard from, under that world's own ids and port.
 */
module TransferTargets {
  import opened Basics
  import opened Instances
  import opened TransferAnswers
  import T = TransferSystem
  import Z = ZoneInstanceManager

  ghost predicate IsAnsweredAt(states: seq<T.System>, events: seq<T.Event>, t: nat, msg: Message)
    requires t < |events| < |states|
  {
    events[t].MasterDoes? && IsAnswered(states[t].master, events[t].event, msg)
  }

  lemma MasterStep(s: T.System, e: T.Event, j: nat)
    requires T.Possible(s, e)
    requires |s.master.sent| <= j < |T.Step(s, e).master.sent| && T.Step(s, e).master.sent[j].Response?
    ensures e.MasterDoes? && IsAnswered(s.master, e.event, T.Step(s, e).master.sent[j])
  {
    match e {
      case MasterReceives(p) => OthersOnlyAsk(s.master, T.Transfer(p));
      case MasterDoes(event) => NewAnswersNameWorld(s.master, event, j);
      case _ =>
    }
  }

  lemma SentStaysInSystem(s: T.System, e: T.Event)
    requires T.Possible(s, e)
    ensures s.master.sent <= T.Step(s, e).master.sent
  {
    match e {
      case MasterReceives(p) => SentStaysSent(s.master, T.Transfer(p));
      case MasterDoes(event) => SentStaysSent(s.master, event);
      case _ =>
    }
  }

  lemma {:induction false} AnswersComeFromEvents(states: seq<T.System>, events: seq<T.Event>, n: nat, j: nat)
    returns (t: nat)
    requires T.IsRun(states, events) && n <= |events| && T.Initial(states[0])
    requires j < |states[n].master.sent| && states[n].master.sent[j].Response?
    ensures t < n && IsAnsweredAt(states, events, t, states[n].master.sent[j])
    decreases n
  {
    SentStaysInSystem(states[n - 1], events[n - 1]);
    if j < |states[n - 1].master.sent| {
      t := AnswersComeFromEvents(states, events, n - 1, j);
    } else {
      t := n - 1;
      MasterStep(states[t], events[t], j);
    }
  }

  // The call was made with a message that the master has sent.
  predicate IsHeard(s: T.System, q: T.Process, c: Z.Call) {
    exists j :: 0 <= j < |s.master.sent| && IsHeardFrom(s.master.sent[j], q, c)
  }

  predicate IsHeardFrom(msg: Message, q: T.Process, c: Z.Call) {
    msg.Response? && msg.to == q.address && c.answer == T.AnswerOf(msg)
  }

  lemma HeardStaysHeard(s: T.System, e: T.Event, q: T.Process, c: Z.Call)
    requires T.Possible(s, e) && IsHeard(s, q, c)
    ensures IsHeard(T.Step(s, e), q, c)
  {
    SentStaysInSystem(s, e);
    var j :| 0 <= j < |s.master.sent| && IsHeardFrom(s.master.sent[j], q, c);
    assert T.Step(s, e).master.sent[j] == s.master.sent[j];
  }

  lemma NewCallIsHeard(s: T.System, e: T.Event, q: T.Process, c: Z.Call)
    requires T.Possible(s, e)
    requires c in T.StateOf(T.Step(s, e), q).calls && c !in T.StateOf(s, q).calls
    ensures IsHeard(T.Step(s, e), q, c)
  {
    assert e.ServerHears? && IsHeardFrom(s.master.sent[e.index], q, c);
  }

  lemma {:induction false} CallsAreHeard(states: seq<T.System>, events: seq<T.Event>, n: nat, q: T.Process, c: Z.Call)
    requires T.IsRun(states, events) && n <= |events| && T.Initial(states[0])
    requires c in T.StateOf(states[n], q).calls
    ensures IsHeard(states[n], q, c)
    decreases n
  {
    if c in T.StateOf(states[n - 1], q).calls {
      CallsAreHeard(states, events, n - 1, q, c);
      HeardStaysHeard(states[n - 1], events[n - 1], q, c);
    } else {
      NewCallIsHeard(states[n - 1], events[n - 1], q, c);
    }
  }

  // The callback was told the ids and the port of the instance, which then had a request for it.
  predicate LeadsTo(c: Z.Call, q: T.Process, i: Inst, request: Request) {
    && c.answer.zoneId == i.mapId && c.answer.instanceId == i.instanceId && c.answer.cloneId == i.cloneId
    && c.answer.port == i.port % TWO_16
    && request.addr == q.address && c.answer.requestId == request.id && c.answer.mythranShift == request.mythranShift
  }

  predicate GotReady(m: Master, e: Instances.Event, k: nat, request: Request)
    requires k < |m.instances|
  {
    e.WorldReady? && IsNamed(m.instances, k, e.mapId, e.instanceId) && request in m.instances[k].requests
  }

  predicate Confirmed(m: Master, e: Instances.Event, k: nat, request: Request)
    requires k < |m.instances|
  {
    e.AffirmResponse? && IsSender(m.instances, k, e.from) && e.id == request.id
    && request in m.instances[k].affirmations
  }

  // In every reachable state and for every callback that was run there was an earlier event at which a tracked
  // world got ready or confirmed the transfer, and it is that world's ids and port that the callback was told.
  lemma CallbacksLeadToTrackedWorlds(states: seq<T.System>, events: seq<T.Event>, n: nat, q: T.Process, c: Z.Call)
    returns (t: nat, k: nat, request: Request)
    requires T.IsRun(states, events) && n <= |events| && T.Initial(states[0])
    requires c in T.StateOf(states[n], q).calls
    ensures t < n && events[t].MasterDoes? && k < |states[t].master.instances|
    ensures LeadsTo(c, q, states[t].master.instances[k], request)
    ensures GotReady(states[t].master, events[t].event, k, request)
         || Confirmed(states[t].master, events[t].event, k, request)
  {
    CallsAreHeard(states, events, n, q, c);
    var j :| 0 <= j < |states[n].master.sent| && IsHeardFrom(states[n].master.sent[j], q, c);
    t := AnswersComeFromEvents(states, events, n, j);
    var m, e, msg := states[t].master, events[t].event, states[n].master.sent[j];
    k, request :| 0 <= k < |m.instances| && Answers(m, e, k, request, msg);
  }
}
