/**
  What the master server tells about its worlds.

  An answer names the very instance that has become ready or has confirmed the transfer, with its ids and its
  port, and nothing else is ever answered.
 */
module TransferAnswers {
  import opened Basics
  import opened Instances

  // The message sends the asker of a request to an instance.
  predicate Names(msg: Message, i: Inst, request: Request) {
    && msg.Response?
    && msg.to == request.addr && msg.id == request.id && msg.mythranShift == request.mythranShift
    && msg.mapId == i.mapId && msg.instanceId == i.instanceId && msg.cloneId == i.cloneId && msg.port == i.port
  }

  predicate InService(i: Inst) {
    !i.isPrivate && !i.shuttingDown && !i.shutdownComplete
  }

  // The first instance in service with these ids is the one at k.
  predicate IsNamed(insts: seq<Inst>, k: nat, mapId: nat, instanceId: nat)
    requires k < |insts|
  {
    && insts[k].mapId == mapId && insts[k].instanceId == instanceId && InService(insts[k])
    && forall j :: 0 <= j < k ==> !(insts[j].mapId == mapId && insts[j].instanceId == instanceId && InService(insts[j]))
  }

  predicate IsSender(insts: seq<Inst>, k: nat, from: Address)
    requires k < |insts|
  {
    insts[k].addr == from && forall j :: 0 <= j < k ==> insts[j].addr != from
  }

  // ----- the two events that answer

  // A world that becomes ready has all that waits for it answered, in order.
  lemma ReadyAnswersAll(m: Master, e: Event, k: nat)
    requires e.WorldReady? && k < |m.instances| && IsNamed(m.instances, k, e.mapId, e.instanceId)
    ensures var i, m' := m.instances[k], Step(m, e);
      && m' == m.(instances := m.instances[k := i.(ready := true, requests := [])], sent := m'.sent)
      && |m'.sent| == |m.sent| + |i.requests| && m.sent <= m'.sent
      && forall j :: 0 <= j < |i.requests| ==> Names(m'.sent[|m.sent| + j], i, i.requests[j])
  {
    assert FindById(m.instances, e.mapId, e.instanceId) == k;
  }

  // A world that confirms a transfer has the first request of that id answered, which waits no longer.
  lemma AffirmAnswersOne(m: Master, e: Event, k: nat, j: nat)
    requires e.AffirmResponse? && k < |m.instances| && IsSender(m.instances, k, e.from)
    requires j < |m.instances[k].affirmations| && m.instances[k].affirmations[j].id == e.id
    requires forall l :: 0 <= l < j ==> m.instances[k].affirmations[l].id != e.id
    ensures var i, m' := m.instances[k], Step(m, e);
      && m' == m.(instances := m.instances[k := i.(affirmations := i.affirmations[..j] + i.affirmations[j + 1..])],
                  sent := m'.sent)
      && |m'.sent| == |m.sent| + 1 && m.sent <= m'.sent && Names(m'.sent[|m.sent|], i, i.affirmations[j])
  {
    assert FindByAddr(m.instances, e.from) == k;
    assert IndexOfId(m.instances[k].affirmations, e.id) == j;
  }

  // ----- no other answers

  // Whatever has been sent since is no answer.
  predicate OnlyAsks(m: Master, m': Master) {
    m.sent <= m'.sent && forall j :: |m.sent| <= j < |m'.sent| ==> !m'.sent[j].Response?
  }

  lemma RouteOnlyAsks(m: Master, mapId: nat, cloneId: nat, request: Request)
    ensures OnlyAsks(m, Route(m, mapId, cloneId, request))
  {
  }

  lemma {:induction false} RouteAllOnlyAsks(m: Master, mapId: nat, cloneId: nat, requests: seq<Request>)
    ensures OnlyAsks(m, RouteAll(m, mapId, cloneId, requests))
    decreases |requests|
  {
    if requests != [] {
      RouteOnlyAsks(m, mapId, cloneId, requests[0]);
      RouteAllOnlyAsks(Route(m, mapId, cloneId, requests[0]), mapId, cloneId, requests[1..]);
    }
  }

  lemma TickOneOnlyAsks(m: Master, k: nat)
    requires k < |m.instances|
    ensures OnlyAsks(m, TickOne(m, k))
  {
    var i := m.instances[k];
    RouteAllOnlyAsks(Stopped(m, k), i.mapId, i.cloneId, i.affirmations);
  }

  lemma {:induction false} TickFromOnlyAsks(m: Master, k: nat, n: nat)
    requires k <= n <= |m.instances|
    ensures OnlyAsks(m, TickFrom(m, k, n))
    decreases n - k
  {
    if k < n {
      TickOneOnlyAsks(m, k);
      TickFromOnlyAsks(TickOne(m, k), k + 1, n);
    }
  }

  lemma RemoveOnlyAsks(m: Master, k: nat)
    requires k < |m.instances|
    ensures OnlyAsks(m, Remove(m, k))
  {
    var dead := WithInst(m, k, m.instances[k].(shutdownComplete := true));
    RouteAllOnlyAsks(dead, m.instances[k].mapId, m.instances[k].cloneId, m.instances[k].affirmations);
  }

  lemma {:induction false} RemoveDeadOnlyAsks(m: Master, k: nat, n: nat)
    requires k + n <= |m.instances|
    ensures OnlyAsks(m, RemoveDead(m, k, n))
    decreases n
  {
    if n > 0 {
      if m.instances[k].shutdownComplete {
        RemoveOnlyAsks(m, k);
        RemoveDeadOnlyAsks(Remove(m, k), k, n - 1);
      } else {
        RemoveDeadOnlyAsks(m, k + 1, n - 1);
      }
    }
  }

  lemma OthersOnlyAsk(m: Master, e: Event)
    requires !e.WorldReady? && !e.AffirmResponse?
    ensures OnlyAsks(m, Step(m, e))
  {
    match e
    case RequestTransfer(id, mythranShift, zoneId, cloneId, from) =>
      RouteOnlyAsks(m, zoneId % TWO_16, cloneId, Request(id, mythranShift, from));
    case Frame =>
      TickFromOnlyAsks(m, 0, |m.instances|);
      RemoveDeadOnlyAsks(TickFrom(m, 0, |m.instances|), 0, |m.instances|);
    case Disconnect(from) =>
      var k := FindByAddr(m.instances, from);
      if k < |m.instances| {
        RemoveOnlyAsks(m, k);
      }
    case _ =>
  }

  // ----- every answer

  // The event makes the instance at k answer a request that waits for it.
  predicate Answers(m: Master, e: Event, k: nat, request: Request, msg: Message)
    requires k < |m.instances|
  {
    && Names(msg, m.instances[k], request)
    && match e
       case WorldReady(mapId, instanceId) =>
         IsNamed(m.instances, k, mapId, instanceId) && request in m.instances[k].requests
       case AffirmResponse(id, from) =>
         IsSender(m.instances, k, from) && id == request.id && request in m.instances[k].affirmations
       case _ => false
  }

  ghost predicate IsAnswered(m: Master, e: Event, msg: Message) {
    exists k, request :: 0 <= k < |m.instances| && Answers(m, e, k, request, msg)
  }

  // Nothing that was sent is taken back, and whatever is answered is answered by the world that got ready or
  // confirmed.
  lemma NewAnswersNameWorld(m: Master, e: Event, j: nat)
    requires |m.sent| <= j < |Step(m, e).sent| && Step(m, e).sent[j].Response?
    ensures IsAnswered(m, e, Step(m, e).sent[j])
  {
    var msg := Step(m, e).sent[j];
    if e.WorldReady? {
      var k := FindById(m.instances, e.mapId, e.instanceId);
      assert k < |m.instances| && IsNamed(m.instances, k, e.mapId, e.instanceId);
      ReadyAnswersAll(m, e, k);
      assert Answers(m, e, k, m.instances[k].requests[j - |m.sent|], msg);
    } else if e.AffirmResponse? {
      var k := FindByAddr(m.instances, e.from);
      assert k < |m.instances| && IsSender(m.instances, k, e.from);
      var l := IndexOfId(m.instances[k].affirmations, e.id);
      AffirmAnswersOne(m, e, k, l);
      assert Answers(m, e, k, m.instances[k].affirmations[l], msg);
    } else {
      OthersOnlyAsk(m, e);
    }
  }

  lemma SentStaysSent(m: Master, e: Event)
    ensures m.sent <= Step(m, e).sent
  {
    if e.WorldReady? {
      var k := FindById(m.instances, e.mapId, e.instanceId);
      if k < |m.instances| {
        assert IsNamed(m.instances, k, e.mapId, e.instanceId);
        ReadyAnswersAll(m, e, k);
      }
    } else if !e.AffirmResponse? {
      OthersOnlyAsk(m, e);
    }
  }

  // ----- every run

  // The n-th event of the run answered with this message.
  ghost predicate IsAnsweredAt(m: Master, events: seq<Event>, n: nat, msg: Message)
    requires n < |events|
  {
    IsAnswered(Run(m, events[..n]), events[n], msg)
  }

  lemma RunFirst(m: Master, events: seq<Event>)
    requires events != []
    ensures Run(m, events) == Run(Step(m, events[0]), events[1..])
  {
  }

  lemma AnsweredLater(m: Master, events: seq<Event>, n: nat, msg: Message)
    requires n + 1 < |events| && IsAnsweredAt(Step(m, events[0]), events[1..], n, msg)
    ensures IsAnsweredAt(m, events, n + 1, msg)
  {
    RunFirst(m, events[..n + 1]);
    assert events[..n + 1][1..] == events[1..][..n];
  }

  lemma AnsweredFirst(m: Master, events: seq<Event>, msg: Message)
    requires events != [] && IsAnswered(m, events[0], msg)
    ensures IsAnsweredAt(m, events, 0, msg)
  {
    assert events[..0] == [] && Run(m, []) == m;
  }

  // Over every run each answer names a world that the master tracked when it answered.
  lemma {:induction false} AnswersNameTrackedWorlds(m: Master, events: seq<Event>, j: nat) returns (n: nat)
    requires |m.sent| <= j < |Run(m, events).sent| && Run(m, events).sent[j].Response?
    ensures n < |events| && IsAnsweredAt(m, events, n, Run(m, events).sent[j])
    decreases |events|
  {
    RunFirst(m, events);
    var next, msg := Step(m, events[0]), Run(m, events).sent[j];
    if j < |next.sent| {
      n := 0;
      SentStaysOverRun(next, events[1..]);
      NewAnswersNameWorld(m, events[0], j);
      AnsweredFirst(m, events, msg);
    } else {
      var later := AnswersNameTrackedWorlds(next, events[1..], j);
      AnsweredLater(m, events, later, msg);
      n := later + 1;
    }
  }

  lemma {:induction false} SentStaysOverRun(m: Master, events: seq<Event>)
    ensures m.sent <= Run(m, events).sent
    decreases |events|
  {
    if events != [] {
      SentStaysSent(m, events[0]);
      SentStaysOverRun(Step(m, events[0]), events[1..]);
    }
  }
}
