/**
  Conservation of zone-transfer requests over every run of the master server.

  A token is one accepted request together with the map and clone it asked for.  Every token is counted: as
  often as it was accepted or copied by a redirect, it has been answered, waits in the queue of a tracked
  instance, or was lost with an instance that was removed before it became ready.
 */
module TransferLedger {
  import opened Basics
  import opened Ports
  import opened Instances

  datatype Token = Token(request: Request, mapId: nat, cloneId: nat)

  // ----- where a token is

  // How often a list of requests for a map and clone holds a token.
  function Count(t: Token, requests: seq<Request>, mapId: nat, cloneId: nat): nat {
    if requests == [] then 0
    else (if t == Token(requests[0], mapId, cloneId) then 1 else 0) + Count(t, requests[1..], mapId, cloneId)
  }

  function Waiting(t: Token, i: Inst): nat {
    Count(t, i.requests, i.mapId, i.cloneId)
  }

  function Unconfirmed(t: Token, i: Inst): nat {
    Count(t, i.affirmations, i.mapId, i.cloneId)
  }

  function Held(t: Token, i: Inst): nat {
    Waiting(t, i) + Unconfirmed(t, i)
  }

  function Outstanding(t: Token, insts: seq<Inst>): nat {
    if insts == [] then 0 else Held(t, insts[0]) + Outstanding(t, insts[1..])
  }

  function Answers(t: Token, m: Message): nat {
    if m.Response? && t == Token(Request(m.id, m.mythranShift, m.to), m.mapId, m.cloneId) then 1 else 0
  }

  function Answered(t: Token, sent: seq<Message>): nat {
    if sent == [] then 0 else Answers(t, sent[0]) + Answered(t, sent[1..])
  }

  // Answers given, plus requests still queued.
  function Total(t: Token, m: Master): nat {
    Answered(t, m.sent) + Outstanding(t, m.instances)
  }

  lemma {:induction false} CountConcat(t: Token, a: seq<Request>, b: seq<Request>, mapId: nat, cloneId: nat)
    ensures Count(t, a + b, mapId, cloneId) == Count(t, a, mapId, cloneId) + Count(t, b, mapId, cloneId)
  {
    if a == [] {
      assert a + b == b;
    } else {
      assert (a + b)[1..] == a[1..] + b;
      CountConcat(t, a[1..], b, mapId, cloneId);
    }
  }

  lemma {:induction false} OutstandingConcat(t: Token, a: seq<Inst>, b: seq<Inst>)
    ensures Outstanding(t, a + b) == Outstanding(t, a) + Outstanding(t, b)
  {
    if a == [] {
      assert a + b == b;
    } else {
      assert (a + b)[1..] == a[1..] + b;
      OutstandingConcat(t, a[1..], b);
    }
  }

  lemma OutstandingOf(t: Token, i: Inst)
    ensures Outstanding(t, [i]) == Held(t, i)
  {
  }

  lemma OutstandingAround(t: Token, insts: seq<Inst>, k: nat)
    requires k < |insts|
    ensures Outstanding(t, insts) == Outstanding(t, insts[..k] + insts[k + 1..]) + Held(t, insts[k])
  {
    assert insts == insts[..k] + ([insts[k]] + insts[k + 1..]);
    OutstandingConcat(t, insts[..k], [insts[k]] + insts[k + 1..]);
    OutstandingConcat(t, [insts[k]], insts[k + 1..]);
    OutstandingConcat(t, insts[..k], insts[k + 1..]);
    OutstandingOf(t, insts[k]);
  }

  lemma OutstandingUpdate(t: Token, insts: seq<Inst>, k: nat, i: Inst)
    requires k < |insts|
    ensures Outstanding(t, insts[k := i]) + Held(t, insts[k]) == Outstanding(t, insts) + Held(t, i)
  {
    var insts' := insts[k := i];
    OutstandingAround(t, insts, k);
    OutstandingAround(t, insts', k);
    assert insts'[..k] + insts'[k + 1..] == insts[..k] + insts[k + 1..];
  }

  lemma {:induction false} AnsweredConcat(t: Token, a: seq<Message>, b: seq<Message>)
    ensures Answered(t, a + b) == Answered(t, a) + Answered(t, b)
  {
    if a == [] {
      assert a + b == b;
    } else {
      assert (a + b)[1..] == a[1..] + b;
      AnsweredConcat(t, a[1..], b);
    }
  }

  lemma AnsweredOne(t: Token, sent: seq<Message>, m: Message)
    ensures Answered(t, sent + [m]) == Answered(t, sent) + Answers(t, m)
  {
    AnsweredConcat(t, sent, [m]);
  }

  lemma {:induction false} AnsweredResponses(t: Token, i: Inst, requests: seq<Request>)
    ensures Answered(t, Responses(i, requests)) == Count(t, requests, i.mapId, i.cloneId)
  {
    if requests != [] {
      assert Responses(i, requests)[1..] == Responses(i, requests[1..]);
      AnsweredResponses(t, i, requests[1..]);
    }
  }

  // ----- the queue invariant

  // A ready instance has no request waiting for readiness; one that is not ready awaits no confirmation.
  predicate QueuesSeparate(i: Inst) {
    (i.ready ==> i.requests == []) && (!i.ready ==> i.affirmations == [])
  }

  predicate WellFormed(m: Master) {
    forall k :: 0 <= k < |m.instances| ==> QueuesSeparate(m.instances[k]) && !m.instances[k].shutdownComplete
  }

  // ----- each operation

  lemma CreateBalance(t: Token, m: Master, mapId: nat, cloneId: nat, softCap: int, hardCap: int, isPrivate: bool,
                      password: seq<char>)
    ensures Total(t, Create(m, mapId, cloneId, softCap, hardCap, isPrivate, password)) == Total(t, m)
  {
    var m' := Create(m, mapId, cloneId, softCap, hardCap, isPrivate, password);
    var i := m'.instances[|m.instances|];
    OutstandingConcat(t, m.instances, [i]);
    OutstandingOf(t, i);
    AnsweredOne(t, m.sent, m'.sent[|m.sent|]);
  }

  lemma GetInstanceBalance(t: Token, m: Master, mapId: nat, isFriend: bool, cloneId: nat)
    ensures Total(t, GetInstance(m, mapId, isFriend, cloneId).0) == Total(t, m)
  {
    CreateBalance(t, m, mapId, cloneId, SoftCap(m.config, mapId), HardCap(m.config, mapId), false, "");
  }

  function One(t: Token, request: Request, mapId: nat, cloneId: nat): nat {
    if t == Token(request, mapId, cloneId) then 1 else 0
  }

  lemma EnqueueBalance(t: Token, m: Master, k: nat, request: Request)
    requires k < |m.instances|
    ensures var i := m.instances[k];
      Total(t, WithInst(m, k, i.(requests := i.requests + [request])))
        == Total(t, m) + One(t, request, i.mapId, i.cloneId)
  {
    var i := m.instances[k];
    CountConcat(t, i.requests, [request], i.mapId, i.cloneId);
    OutstandingUpdate(t, m.instances, k, i.(requests := i.requests + [request]));
  }

  lemma RequestAffirmationBalance(t: Token, m: Master, k: nat, request: Request)
    requires k < |m.instances|
    ensures var i := m.instances[k];
      Total(t, RequestAffirmation(m, k, request)) == Total(t, m) + One(t, request, i.mapId, i.cloneId)
  {
    var i := m.instances[k];
    CountConcat(t, i.affirmations, [request], i.mapId, i.cloneId);
    OutstandingUpdate(t, m.instances, k, i.(affirmations := i.affirmations + [request]));
    AnsweredOne(t, m.sent, AffirmRequest(i.addr, request.id));
  }

  // Routing a request adds exactly its token.
  lemma RouteBalance(t: Token, m: Master, mapId: nat, cloneId: nat, request: Request)
    ensures Total(t, Route(m, mapId, cloneId, request)) == Total(t, m) + One(t, request, mapId, cloneId)
  {
    var (m', k) := GetInstance(m, mapId, false, cloneId);
    GetInstanceBalance(t, m, mapId, false, cloneId);
    if m'.instances[k].ready {
      RequestAffirmationBalance(t, m', k, request);
    } else {
      EnqueueBalance(t, m', k, request);
    }
  }

  lemma {:induction false} RouteAllBalance(t: Token, m: Master, mapId: nat, cloneId: nat, requests: seq<Request>)
    ensures Total(t, RouteAll(m, mapId, cloneId, requests)) == Total(t, m) + Count(t, requests, mapId, cloneId)
    decreases |requests|
  {
    if requests != [] {
      RouteBalance(t, m, mapId, cloneId, requests[0]);
      RouteAllBalance(t, Route(m, mapId, cloneId, requests[0]), mapId, cloneId, requests[1..]);
    }
  }

  lemma ReadyBalance(t: Token, m: Master, k: nat)
    requires k < |m.instances|
    ensures Total(t, Ready(m, k)) == Total(t, m)
  {
    var i := m.instances[k];
    OutstandingUpdate(t, m.instances, k, i.(ready := true, requests := []));
    AnsweredConcat(t, m.sent, Responses(i, i.requests));
    AnsweredResponses(t, i, i.requests);
  }

  lemma CountAround(t: Token, a: seq<Request>, j: nat, mapId: nat, cloneId: nat)
    requires j < |a|
    ensures Count(t, a, mapId, cloneId) == Count(t, a[..j] + a[j + 1..], mapId, cloneId) + One(t, a[j], mapId, cloneId)
  {
    assert a == a[..j] + ([a[j]] + a[j + 1..]);
    CountConcat(t, a[..j], [a[j]] + a[j + 1..], mapId, cloneId);
    CountConcat(t, [a[j]], a[j + 1..], mapId, cloneId);
    CountConcat(t, a[..j], a[j + 1..], mapId, cloneId);
  }

  lemma AffirmBalance(t: Token, m: Master, k: nat, id: nat)
    requires k < |m.instances|
    ensures Total(t, Affirm(m, k, id)) == Total(t, m)
  {
    var i := m.instances[k];
    var a, j := i.affirmations, IndexOfId(i.affirmations, id);
    if j < |a| {
      CountAround(t, a, j, i.mapId, i.cloneId);
      OutstandingUpdate(t, m.instances, k, i.(affirmations := a[..j] + a[j + 1..]));
      AnsweredOne(t, m.sent, ResponseOf(i, a[j]));
    }
  }

  lemma ChangeFlags(t: Token, m: Master, k: nat, i: Inst)
    requires k < |m.instances|
    requires i.requests == m.instances[k].requests && i.affirmations == m.instances[k].affirmations
    requires i.mapId == m.instances[k].mapId && i.cloneId == m.instances[k].cloneId
    ensures Total(t, WithInst(m, k, i)) == Total(t, m)
  {
    OutstandingUpdate(t, m.instances, k, i);
  }

  // Removing an instance loses exactly the requests that were waiting for it to become ready; the ones that it
  // had not confirmed live on elsewhere.
  lemma RemoveBalance(t: Token, m: Master, k: nat)
    requires k < |m.instances|
    ensures Total(t, Remove(m, k)) + Waiting(t, m.instances[k]) == Total(t, m)
  {
    var i := m.instances[k];
    var dead := WithInst(m, k, i.(shutdownComplete := true));
    ChangeFlags(t, m, k, i.(shutdownComplete := true));
    RouteAllBalance(t, dead, i.mapId, i.cloneId, i.affirmations);
    RouteAllKeepsIndices(dead, i.mapId, i.cloneId, i.affirmations);
    OutstandingAround(t, Redirect(dead, k).instances, k);
  }

  // ----- the queue invariant is kept

  // Queues are in order everywhere, and only the instance at `dying` may have completed its shutdown.
  predicate InOrder(m: Master, dying: nat) {
    forall k :: 0 <= k < |m.instances| ==>
      QueuesSeparate(m.instances[k]) && (k != dying ==> !m.instances[k].shutdownComplete)
  }

  lemma RouteKeepsOrder(m: Master, mapId: nat, cloneId: nat, request: Request, dying: nat)
    requires InOrder(m, dying)
    requires dying < |m.instances| || WellFormed(m)
    ensures InOrder(Route(m, mapId, cloneId, request), dying)
    ensures WellFormed(m) ==> WellFormed(Route(m, mapId, cloneId, request))
  {
  }

  lemma {:induction false} RouteAllKeepsOrder(m: Master, mapId: nat, cloneId: nat, requests: seq<Request>, dying: nat)
    requires InOrder(m, dying) && dying < |m.instances|
    ensures InOrder(RouteAll(m, mapId, cloneId, requests), dying)
    ensures WellFormed(m) ==> WellFormed(RouteAll(m, mapId, cloneId, requests))
    decreases |requests|
  {
    if requests != [] {
      RouteKeepsOrder(m, mapId, cloneId, requests[0], dying);
      RouteKeepsIndices(m, mapId, cloneId, requests[0]);
      RouteAllKeepsOrder(Route(m, mapId, cloneId, requests[0]), mapId, cloneId, requests[1..], dying);
    }
  }

  lemma RemoveKeepsOrder(m: Master, k: nat)
    requires k < |m.instances| && WellFormed(m)
    ensures WellFormed(Remove(m, k))
  {
    var i := m.instances[k];
    var dead := WithInst(m, k, i.(shutdownComplete := true));
    RouteAllKeepsOrder(dead, i.mapId, i.cloneId, i.affirmations, k);
    RouteAllKeepsIndices(dead, i.mapId, i.cloneId, i.affirmations);
    var routed := Redirect(dead, k).instances;
    forall j | 0 <= j < |Remove(m, k).instances|
      ensures QueuesSeparate(Remove(m, k).instances[j]) && !Remove(m, k).instances[j].shutdownComplete
    {
      assert Remove(m, k).instances[j] == routed[if j < k then j else j + 1];
    }
  }

  // ----- one frame

  // How often a frame copies a token: once for every unconfirmed copy at an instance that is out of time.
  function CopiedByTick(t: Token, m: Master, k: nat, n: nat): nat
    requires k <= n <= |m.instances|
    decreases n - k
  {
    if k == n then 0
    else
      (if TimeOut(m.instances[k]) == READY_TIMEOUT then Unconfirmed(t, m.instances[k]) else 0)
      + CopiedByTick(t, TickOne(m, k), k + 1, n)
  }

  lemma TickOneBalance(t: Token, m: Master, k: nat)
    requires k < |m.instances|
    ensures Total(t, TickOne(m, k))
         == Total(t, m) + if TimeOut(m.instances[k]) == READY_TIMEOUT then Unconfirmed(t, m.instances[k]) else 0
  {
    var i := m.instances[k];
    if TimeOut(i) != READY_TIMEOUT {
      ChangeFlags(t, m, k, i.(timeout := TimeOut(i)));
    } else {
      ChangeFlags(t, m, k, i.(timeout := TimeOut(i), shuttingDown := true));
      AnsweredOne(t, m.sent, ShutdownRequest(i.addr));
      RouteAllBalance(t, Stopped(m, k), i.mapId, i.cloneId, i.affirmations);
    }
  }

  lemma TickOneKeepsOrder(m: Master, k: nat)
    requires k < |m.instances| && WellFormed(m)
    ensures WellFormed(TickOne(m, k))
  {
    var i := m.instances[k];
    if TimeOut(i) == READY_TIMEOUT {
      RouteAllKeepsOrder(Stopped(m, k), i.mapId, i.cloneId, i.affirmations, k);
    }
  }

  lemma {:induction false} TickFromBalance(t: Token, m: Master, k: nat, n: nat)
    requires k <= n <= |m.instances|
    ensures Total(t, TickFrom(m, k, n)) == Total(t, m) + CopiedByTick(t, m, k, n)
    decreases n - k
  {
    if k < n {
      TickOneBalance(t, m, k);
      TickFromBalance(t, TickOne(m, k), k + 1, n);
    }
  }

  lemma {:induction false} TickFromKeepsOrder(m: Master, k: nat, n: nat)
    requires k <= n <= |m.instances| && WellFormed(m)
    ensures WellFormed(TickFrom(m, k, n))
    decreases n - k
  {
    if k < n {
      TickOneKeepsOrder(m, k);
      TickFromKeepsOrder(TickOne(m, k), k + 1, n);
    }
  }

  // Shutdown is only ever completed by removal, so the sweep for dead instances never finds one.
  lemma {:induction false} NothingDead(m: Master, k: nat, n: nat)
    requires k + n <= |m.instances| && WellFormed(m)
    ensures RemoveDead(m, k, n) == m
    decreases n
  {
    if n > 0 {
      NothingDead(m, k + 1, n - 1);
    }
  }

  lemma TickKeepsOrder(m: Master)
    requires WellFormed(m)
    ensures WellFormed(Tick(m)) && Tick(m) == TickFrom(m, 0, |m.instances|)
  {
    TickFromKeepsOrder(m, 0, |m.instances|);
    NothingDead(TickFrom(m, 0, |m.instances|), 0, |m.instances|);
  }

  // ----- whole runs

  function Accepted(t: Token, e: Event): nat {
    if e.RequestTransfer? then One(t, Request(e.id, e.mythranShift, e.from), e.zoneId % TWO_16, e.cloneId) else 0
  }

  function Copied(t: Token, m: Master, e: Event): nat {
    if e.Frame? then CopiedByTick(t, m, 0, |m.instances|) else 0
  }

  // The instance that an event removes, if any.
  predicate Removes(m: Master, e: Event) {
    e.Disconnect? && FindByAddr(m.instances, e.from) < |m.instances|
  }

  function Removed(m: Master, e: Event): Inst
    requires Removes(m, e)
  {
    m.instances[FindByAddr(m.instances, e.from)]
  }

  // The requests that still wait for the instance that an event removes.
  function Lost(t: Token, m: Master, e: Event): nat {
    if Removes(m, e) then Waiting(t, Removed(m, e)) else 0
  }

  lemma StepBalance(t: Token, m: Master, e: Event)
    requires WellFormed(m)
    ensures Total(t, Step(m, e)) + Lost(t, m, e) == Total(t, m) + Accepted(t, e) + Copied(t, m, e)
  {
    match e {
      case RequestTransfer(id, mythranShift, zoneId, cloneId, from) =>
        RouteBalance(t, m, zoneId % TWO_16, cloneId, Request(id, mythranShift, from));
      case PrepZone(zoneId) => GetInstanceBalance(t, m, zoneId % TWO_16, false, 0);
      case WorldReady(mapId, instanceId) =>
        if FindById(m.instances, mapId, instanceId) < |m.instances| {
          ReadyBalance(t, m, FindById(m.instances, mapId, instanceId));
        }
      case AffirmResponse(id, from) =>
        if FindByAddr(m.instances, from) < |m.instances| {
          AffirmBalance(t, m, FindByAddr(m.instances, from), id);
        }
      case Frame =>
        TickFromBalance(t, m, 0, |m.instances|);
        TickKeepsOrder(m);
      case Disconnect(from) =>
        if Removes(m, e) {
          RemoveBalance(t, m, FindByAddr(m.instances, from));
        }
      case CreatePrivateZone(zoneId, cloneId, password) =>
        CreateBalance(t, m, zoneId % TWO_16, cloneId, 999, 999, true, UpTo(password, '\0'));
      case ServerInfo(_, _, _, _) => TrackBalance(t, m, e);
      case _ => BookkeepingBalance(t, m, e);
    }
  }

  lemma TrackBalance(t: Token, m: Master, e: Event)
    requires e.ServerInfo?
    ensures Total(t, Step(m, e)) == Total(t, m)
  {
    var m' := Step(m, e);
    if e.port !in UsedPorts(m.instances) {
      var i := m'.instances[|m.instances|];
      OutstandingConcat(t, m.instances, [i]);
      OutstandingOf(t, i);
    } else {
      var k := FindById(m.instances, e.zoneId % TWO_16, e.instanceId % TWO_16);
      if k < |m.instances| {
        ChangeFlags(t, m, k, m'.instances[k]);
      }
    }
  }

  lemma BookkeepingBalance(t: Token, m: Master, e: Event)
    requires e.PlayerAdded? || e.PlayerRemoved? || e.ShutdownResponse?
    ensures Total(t, Step(m, e)) == Total(t, m)
  {
    var k := if e.ShutdownResponse? then FindByAddr(m.instances, e.from)
             else FindById(m.instances, e.mapId, e.instanceId);
    if k < |m.instances| {
      ChangeFlags(t, m, k, Step(m, e).instances[k]);
    }
  }

  // Every packet and every frame keeps the queue invariant.
  lemma StepKeepsOrder(m: Master, e: Event)
    requires WellFormed(m)
    ensures WellFormed(Step(m, e))
  {
    if e.Frame? {
      TickKeepsOrder(m);
    } else if Removes(m, e) {
      RemoveKeepsOrder(m, FindByAddr(m.instances, e.from));
    } else if e.RequestTransfer? {
      RouteKeepsOrder(m, e.zoneId % TWO_16, e.cloneId, Request(e.id, e.mythranShift, e.from), |m.instances|);
    } else if e.WorldReady? || e.AffirmResponse? {
      AnswerKeepsOrder(m, e);
    } else {
      RestKeepsOrder(m, e);
    }
  }

  lemma UpdateKeepsOrder(m: Master, k: nat, i: Inst)
    requires WellFormed(m) && k < |m.instances| && QueuesSeparate(i) && !i.shutdownComplete
    ensures WellFormed(WithInst(m, k, i))
  {
  }

  lemma AnswerKeepsOrder(m: Master, e: Event)
    requires WellFormed(m) && (e.WorldReady? || e.AffirmResponse?)
    ensures WellFormed(Step(m, e))
  {
    var k := if e.WorldReady? then FindById(m.instances, e.mapId, e.instanceId) else FindByAddr(m.instances, e.from);
    if k < |m.instances| {
      UpdateKeepsOrder(m, k, Step(m, e).instances[k]);
    }
  }

  lemma RestKeepsOrder(m: Master, e: Event)
    requires WellFormed(m) && !Removes(m, e)
    requires !e.Frame? && !e.RequestTransfer? && !e.WorldReady? && !e.AffirmResponse?
    ensures WellFormed(Step(m, e))
  {
  }

  datatype Books = Books(accepted: nat, copied: nat, lost: nat)

  // What happens to a token during a run.
  function Bookkeep(t: Token, m: Master, events: seq<Event>): Books
    decreases |events|
  {
    if events == [] then Books(0, 0, 0)
    else
      var e := events[0];
      var rest := Bookkeep(t, Step(m, e), events[1..]);
      Books(Accepted(t, e) + rest.accepted, Copied(t, m, e) + rest.copied, Lost(t, m, e) + rest.lost)
  }

  // Over every run the books balance for every token, and the queue invariant holds at the end.
  lemma {:induction false} Balance(t: Token, m: Master, events: seq<Event>)
    requires WellFormed(m)
    ensures var books := Bookkeep(t, m, events);
      Total(t, Run(m, events)) + books.lost == Total(t, m) + books.accepted + books.copied
    ensures WellFormed(Run(m, events))
    decreases |events|
  {
    if events != [] {
      StepBalance(t, m, events[0]);
      StepKeepsOrder(m, events[0]);
      Balance(t, Step(m, events[0]), events[1..]);
    }
  }

  // Every instance that is removed during the run is ready at that moment.
  predicate OnlyReadyRemoved(m: Master, events: seq<Event>)
    decreases |events|
  {
    events == [] ||
    var e := events[0];
    (Removes(m, e) ==> Removed(m, e).ready) && OnlyReadyRemoved(Step(m, e), events[1..])
  }

  lemma {:induction false} ReadyRemovalsLoseNothing(t: Token, m: Master, events: seq<Event>)
    requires WellFormed(m) && OnlyReadyRemoved(m, events)
    ensures Bookkeep(t, m, events).lost == 0
    decreases |events|
  {
    if events != [] {
      StepKeepsOrder(m, events[0]);
      ReadyRemovalsLoseNothing(t, Step(m, events[0]), events[1..]);
    }
  }

  // If only ready instances are removed, every accepted request has been answered or waits in the queue of a
  // tracked instance, at least as often as it was accepted.
  lemma NoRequestIsLost(t: Token, m: Master, events: seq<Event>)
    requires WellFormed(m) && OnlyReadyRemoved(m, events)
    ensures Bookkeep(t, m, events).accepted <= Total(t, Run(m, events))
  {
    Balance(t, m, events);
    ReadyRemovalsLoseNothing(t, m, events);
  }

  // A removal loses something exactly when a request waits for the removed instance, which is then not ready.
  lemma RemovalLosesWaiting(m: Master, k: nat)
    requires WellFormed(m) && k < |m.instances|
    ensures (forall t :: Total(t, Remove(m, k)) == Total(t, m)) <==> m.instances[k].requests == []
    ensures m.instances[k].requests != [] ==> !m.instances[k].ready
  {
    var i := m.instances[k];
    forall t: Token ensures Total(t, Remove(m, k)) + Waiting(t, i) == Total(t, m) {
      RemoveBalance(t, m, k);
    }
    if i.requests != [] {
      var t := Token(i.requests[0], i.mapId, i.cloneId);
      assert Waiting(t, i) > 0;
      assert Total(t, Remove(m, k)) != Total(t, m);
    }
  }

  // ----- nothing is answered that was not asked

  lemma HeldIsOutstanding(t: Token, insts: seq<Inst>, k: nat)
    requires k < |insts|
    ensures Held(t, insts[k]) <= Outstanding(t, insts)
  {
    OutstandingAround(t, insts, k);
  }

  lemma {:induction false} CopiesAreOutstanding(t: Token, m: Master, k: nat, n: nat)
    requires k <= n <= |m.instances|
    requires CopiedByTick(t, m, k, n) > 0
    ensures Total(t, m) > 0
    decreases n - k
  {
    TickOneBalance(t, m, k);
    HeldIsOutstanding(t, m.instances, k);
    if Total(t, m) == 0 {
      CopiesAreOutstanding(t, TickOne(m, k), k + 1, n);
    }
  }

  // Every response, after any number of redirects, names the map and clone that an accepted request asked for.
  lemma {:induction false} AnswersWereAsked(t: Token, m: Master, events: seq<Event>)
    requires WellFormed(m) && Total(t, m) == 0
    ensures Total(t, Run(m, events)) > 0 ==> Bookkeep(t, m, events).accepted > 0
    decreases |events|
  {
    if events != [] && Accepted(t, events[0]) == 0 {
      StepBalance(t, m, events[0]);
      StepKeepsOrder(m, events[0]);
      if Copied(t, m, events[0]) > 0 {
        CopiesAreOutstanding(t, m, 0, |m.instances|);
      }
      AnswersWereAsked(t, Step(m, events[0]), events[1..]);
    }
  }

  // ----- redirects

  // Redirecting from an instance that is being retired never targets that instance, so the list that is being
  // walked does not change.
  lemma RedirectSparesSource(m: Master, k: nat)
    requires k < |m.instances| && !IsLive(m.instances[k])
    ensures k < |Redirect(m, k).instances| && Redirect(m, k).instances[k] == m.instances[k]
  {
    var i := m.instances[k];
    RouteAllKeepsIndices(m, i.mapId, i.cloneId, i.affirmations);
  }

  // Why readiness matters: a world that disconnects before it is ready takes the request that started it along.
  const UNREADY: Inst := NewInst(3000, 1200, 0, 0, 8, 12, false, "").(requests := [Request(1, false, 7)])
  const START: Master := Master(Config(3000, map[]), [], 65535, [])
  const ASKED: Master := START.(instances := [UNREADY], lastInstanceId := 0, sent := [StartWorld(1200, 3000, 0, 12, 0)])
  const REPORTED: Master := ASKED.(instances := [UNREADY.(addr := 9)])

  lemma AskingStartsWorld()
    ensures Step(START, RequestTransfer(1, false, 1200, 0, 7)) == ASKED
  {
    assert UsedPorts([]) == [];
    assert FreePort(3000, []) == 3000;
    assert GetInstance(START, 1200, false, 0) == (Create(START, 1200, 0, 8, 12, false, ""), 0);
    var created := Create(START, 1200, 0, 8, 12, false, "");
    assert created.instances == [UNREADY.(requests := [])] && created.sent == ASKED.sent;
    var routed := Route(START, 1200, 0, Request(1, false, 7));
    assert created.instances[0].requests + [Request(1, false, 7)] == UNREADY.requests;
    assert routed == WithInst(created, 0, UNREADY);
    assert routed.instances == ASKED.instances;
  }

  lemma ReportingSetsAddress()
    ensures Step(ASKED, ServerInfo(3000, 1200, 0, 9)) == REPORTED
  {
    assert UsedPorts([UNREADY])[0] == 3000;
    assert FindById([UNREADY], 1200, 0) == 0;
  }

  lemma LeavingRemoves()
    ensures FindByAddr(REPORTED.instances, 9) == 0
    ensures Step(REPORTED, Disconnect(9)) == REPORTED.(instances := [])
  {
  }

  lemma UnreadyRemovalLosesRequest()
    ensures var t := Token(Request(1, false, 7), 1200, 0);
      var events := [RequestTransfer(1, false, 1200, 0, 7), ServerInfo(3000, 1200, 0, 9), Disconnect(9)];
      && WellFormed(START) && !OnlyReadyRemoved(START, events)
      && Bookkeep(t, START, events).accepted == 1 && Total(t, Run(START, events)) == 0
  {
    var e1, e2, e3 := RequestTransfer(1, false, 1200, 0, 7), ServerInfo(3000, 1200, 0, 9), Disconnect(9);
    AskingStartsWorld();
    ReportingSetsAddress();
    LeavingRemoves();
    assert [e1, e2, e3][1..] == [e2, e3] && [e2, e3][1..] == [e3] && [e3][1..] == [];
    assert Run(START, [e1, e2, e3]) == Run(ASKED, [e2, e3]) == Run(REPORTED, [e3]) == REPORTED.(instances := []);
  }
}
