/**
  Which instance serves a request, and for how long: room for players, and the confirmation that has to come in
  time.
 */
module InstanceService {
  import opened Basics
  import opened Ports
  import opened Instances
  import opened TransferAnswers
  import L = TransferLedger

  // ----- who gets a request

  predicate HasRoom(i: Inst, mapId: nat, cloneId: nat) {
    i.mapId == mapId && i.cloneId == cloneId && i.clients < i.softCap && InService(i)
  }

  // A ready instance is asked to confirm the request, one that is not ready keeps it.
  function Served(i: Inst, request: Request): Inst {
    if i.ready then i.(affirmations := i.affirmations + [request]) else i.(requests := i.requests + [request])
  }

  // The first instance in service with room gets the request, and every other one stays as it is.
  lemma RequestGoesWhereThereIsRoom(m: Master, e: Event, k: nat)
    requires e.RequestTransfer? && k < |m.instances| && HasRoom(m.instances[k], e.zoneId % TWO_16, e.cloneId)
    requires forall j :: 0 <= j < k ==> !HasRoom(m.instances[j], e.zoneId % TWO_16, e.cloneId)
    ensures var i, request := m.instances[k], Request(e.id, e.mythranShift, e.from);
      Step(m, e) == m.(instances := m.instances[k := Served(i, request)],
                       sent := m.sent + if i.ready then [AffirmRequest(i.addr, e.id)] else [])
  {
    assert FindInstance(m.instances, e.zoneId % TWO_16, false, e.cloneId) == k;
    assert m.sent + [] == m.sent;
  }

  // With room nowhere a world is started for it, on a free port and under the next instance id.
  lemma RequestStartsWorld(m: Master, e: Event)
    requires e.RequestTransfer?
    requires forall i :: i in m.instances ==> !HasRoom(i, e.zoneId % TWO_16, e.cloneId)
    ensures var n, m', mapId := |m.instances|, Step(m, e), e.zoneId % TWO_16;
      && |m'.instances| == n + 1 && m'.instances[..n] == m.instances
      && var i := m'.instances[n];
      && i.mapId == mapId && i.cloneId == e.cloneId && i.instanceId == (m.lastInstanceId + 1) % TWO_16
      && i.port == FreePort(m.config.basePort, UsedPorts(m.instances))
      && i.clients == 0 && !i.ready && InService(i)
      && (mapId == 0 ==> i.softCap == i.hardCap == 999)
      && (mapId != 0 && mapId in m.config.zoneTable ==> Caps(i.softCap, i.hardCap) == m.config.zoneTable[mapId])
      && (mapId != 0 && mapId !in m.config.zoneTable ==> i.softCap == 8 && i.hardCap == 12)
      && i.requests == [Request(e.id, e.mythranShift, e.from)] && i.affirmations == []
      && m'.lastInstanceId == i.instanceId
      && m'.sent == m.sent + [StartWorld(i.mapId, i.port, i.instanceId, i.hardCap, i.cloneId)]
  {
    forall j | 0 <= j < |m.instances| ensures !IsAvailable(m.instances[j], e.zoneId % TWO_16, false, e.cloneId) {
      assert m.instances[j] in m.instances;
    }
    assert FindInstance(m.instances, e.zoneId % TWO_16, false, e.cloneId) == |m.instances|;
    var m', n := Step(m, e), |m.instances|;
    assert [] + [Request(e.id, e.mythranShift, e.from)] == [Request(e.id, e.mythranShift, e.from)];
    assert m'.instances[..n] == m.instances;
  }

  // So an instance at its soft cap, private or out of service, never gets one.
  lemma NoRoomNoRequest(m: Master, e: Event, k: nat)
    requires e.RequestTransfer? && k < |m.instances|
    requires m.instances[k].clients >= m.instances[k].softCap || !InService(m.instances[k])
    ensures Step(m, e).instances[k] == m.instances[k]
  {
  }

  // A friend may go where only the hard cap leaves room.
  lemma FriendGoesBelowHardCap(insts: seq<Inst>, mapId: nat, cloneId: nat, k: nat)
    requires k < |insts| && insts[k].mapId == mapId && insts[k].cloneId == cloneId && InService(insts[k])
    requires forall j :: 0 <= j < k ==> insts[j].mapId != mapId || insts[j].cloneId != cloneId
    ensures FindInstance(insts, mapId, true, cloneId) == k <==> insts[k].clients < insts[k].hardCap
    ensures FindInstance(insts, mapId, false, cloneId) == k <==> insts[k].clients < insts[k].softCap
  {
  }

  // ----- counting players

  lemma UnknownWorldsAreIgnored(m: Master, e: Event)
    requires e.PlayerAdded? || e.PlayerRemoved? || e.WorldReady?
    requires forall i :: i in m.instances ==> !(i.mapId == e.mapId && i.instanceId == e.instanceId && InService(i))
    ensures Step(m, e) == m
  {
  }

  lemma PlayersAreCounted(m: Master, e: Event, k: nat)
    requires (e.PlayerAdded? || e.PlayerRemoved?) && k < |m.instances|
    requires IsNamed(m.instances, k, e.mapId, e.instanceId)
    ensures var i, n := m.instances[k], Step(m, e).instances[k].clients;
      && Step(m, e) == m.(instances := m.instances[k := i.(clients := n)])
      && (e.PlayerAdded? ==> n == i.clients + 1)
      && (e.PlayerRemoved? && i.clients > 0 ==> n == i.clients - 1)
      && (e.PlayerRemoved? && i.clients == 0 ==> n == 0)
  {
    assert FindById(m.instances, e.mapId, e.instanceId) == k;
  }

  // A player who comes and goes again leaves everything as it was.
  lemma ComingAndGoing(m: Master, mapId: nat, instanceId: nat)
    requires forall i :: i in m.instances ==> i.clients >= 0
    ensures Step(Step(m, PlayerAdded(mapId, instanceId)), PlayerRemoved(mapId, instanceId)) == m
  {
    var k := FindById(m.instances, mapId, instanceId);
    if k < |m.instances| {
      var more := Step(m, PlayerAdded(mapId, instanceId));
      assert IsNamed(m.instances, k, mapId, instanceId) && IsNamed(more.instances, k, mapId, instanceId);
      PlayersAreCounted(m, PlayerAdded(mapId, instanceId), k);
      PlayersAreCounted(more, PlayerRemoved(mapId, instanceId), k);
      assert more.instances[k := m.instances[k]] == m.instances;
    }
  }

  // ----- queues only grow while requests are routed

  predicate OnlyQueued(i: Inst, i': Inst) {
    && i'.(requests := i.requests, affirmations := i.affirmations) == i
    && i.requests <= i'.requests && i.affirmations <= i'.affirmations
  }

  // In m', which came of m by routing, every instance has at most more requests than before.
  predicate Routed(m: Master, m': Master) {
    && |m.instances| <= |m'.instances| && m.sent <= m'.sent
    && forall j :: 0 <= j < |m.instances| ==> OnlyQueued(m.instances[j], m'.instances[j])
  }

  // The request waits at an instance of this map and clone other than the one at k.
  predicate WaitsElsewhere(m: Master, k: nat, mapId: nat, cloneId: nat, request: Request) {
    exists j :: 0 <= j < |m.instances| && j != k && WaitsAt(m.instances[j], mapId, cloneId, request)
  }

  predicate WaitsAt(i: Inst, mapId: nat, cloneId: nat, request: Request) {
    i.mapId == mapId && i.cloneId == cloneId && (request in i.requests || request in i.affirmations)
  }

  lemma RouteRoutes(m: Master, mapId: nat, cloneId: nat, request: Request, k: nat)
    requires k < |m.instances| && !IsLive(m.instances[k])
    ensures var m' := Route(m, mapId, cloneId, request);
      Routed(m, m') && m'.instances[k] == m.instances[k] && WaitsElsewhere(m', k, mapId, cloneId, request)
  {
    var (found, j) := GetInstance(m, mapId, false, cloneId);
    assert WaitsAt(Route(m, mapId, cloneId, request).instances[j], mapId, cloneId, request);
  }

  lemma RoutedOn(m: Master, m': Master, m'': Master)
    requires Routed(m, m') && Routed(m', m'')
    ensures Routed(m, m'')
  {
    forall j | 0 <= j < |m.instances| ensures OnlyQueued(m.instances[j], m''.instances[j]) {
      assert OnlyQueued(m.instances[j], m'.instances[j]) && OnlyQueued(m'.instances[j], m''.instances[j]);
    }
  }

  lemma WaitingOn(m: Master, m': Master, k: nat, mapId: nat, cloneId: nat, request: Request)
    requires Grown(m, m') && WaitsElsewhere(m, k, mapId, cloneId, request)
    ensures WaitsElsewhere(m', k, mapId, cloneId, request)
  {
    var j :| 0 <= j < |m.instances| && j != k && WaitsAt(m.instances[j], mapId, cloneId, request);
    assert WaitsAt(m'.instances[j], mapId, cloneId, request);
  }

  // As Routed, but flags and timeouts may have changed.
  predicate Grown(m: Master, m': Master) {
    && |m.instances| <= |m'.instances| && m.sent <= m'.sent
    && forall j :: 0 <= j < |m.instances| ==>
      var i, i' := m.instances[j], m'.instances[j];
      && i'.mapId == i.mapId && i'.cloneId == i.cloneId
      && i.requests <= i'.requests && i.affirmations <= i'.affirmations
  }

  lemma RoutedIsGrown(m: Master, m': Master)
    requires Routed(m, m')
    ensures Grown(m, m')
  {
    forall j | 0 <= j < |m.instances|
      ensures m'.instances[j].mapId == m.instances[j].mapId && m'.instances[j].cloneId == m.instances[j].cloneId
      ensures m.instances[j].requests <= m'.instances[j].requests
      ensures m.instances[j].affirmations <= m'.instances[j].affirmations
    {
      assert OnlyQueued(m.instances[j], m'.instances[j]);
    }
  }

  lemma GrownOn(m: Master, m': Master, m'': Master)
    requires Grown(m, m') && Grown(m', m'')
    ensures Grown(m, m'')
  {
  }

  lemma OneMoreRouted(m: Master, next: Master, m': Master, k: nat, mapId: nat, cloneId: nat, requests: seq<Request>)
    requires Routed(m, next) && Routed(next, m') && requests != []
    requires WaitsElsewhere(next, k, mapId, cloneId, requests[0])
    requires forall r :: r in requests[1..] ==> WaitsElsewhere(m', k, mapId, cloneId, r)
    ensures Routed(m, m') && forall r :: r in requests ==> WaitsElsewhere(m', k, mapId, cloneId, r)
  {
    RoutedOn(m, next, m');
    RoutedIsGrown(next, m');
    WaitingOn(next, m', k, mapId, cloneId, requests[0]);
    assert requests == [requests[0]] + requests[1..];
  }

  lemma {:induction false} RouteAllRoutes(m: Master, mapId: nat, cloneId: nat, requests: seq<Request>, k: nat)
    requires k < |m.instances| && !IsLive(m.instances[k])
    ensures var m' := RouteAll(m, mapId, cloneId, requests);
      && Routed(m, m') && m'.instances[k] == m.instances[k]
      && forall r :: r in requests ==> WaitsElsewhere(m', k, mapId, cloneId, r)
    decreases |requests|
  {
    if requests != [] {
      var next, m' := Route(m, mapId, cloneId, requests[0]), RouteAll(m, mapId, cloneId, requests);
      RouteRoutes(m, mapId, cloneId, requests[0], k);
      RouteAllRoutes(next, mapId, cloneId, requests[1..], k);
      OneMoreRouted(m, next, m', k, mapId, cloneId, requests);
    }
  }

  // ----- one instance's turn in a frame

  // What its turn does to an instance itself.
  function Aged(i: Inst): Inst {
    var timeout := if i.affirmations == [] then 0 else (i.timeout + 1) % TWO_32;
    i.(timeout := timeout, shuttingDown := i.shuttingDown || timeout == 900)
  }

  // Its turn ages an instance; if that shuts it down it is told so, and all that it was to confirm goes elsewhere.
  lemma TurnAges(m: Master, k: nat)
    requires k < |m.instances|
    ensures var i, m' := m.instances[k], TickOne(m, k);
      && Grown(m, m') && m'.instances[k] == Aged(i)
      && (forall j :: 0 <= j < |m.instances| && j != k ==> OnlyQueued(m.instances[j], m'.instances[j]))
      && (Aged(i).timeout == 900 ==>
           ShutdownRequest(i.addr) in m'.sent
           && forall r :: r in i.affirmations ==> WaitsElsewhere(m', k, i.mapId, i.cloneId, r))
  {
    var i, s := m.instances[k], Stopped(m, k);
    if TimeOut(i) == READY_TIMEOUT {
      RouteAllRoutes(s, i.mapId, i.cloneId, i.affirmations, k);
      assert s.sent[|m.sent|] == ShutdownRequest(i.addr);
      RoutedIsGrown(s, TickOne(m, k));
      GrownOn(m, s, TickOne(m, k));
      forall j | 0 <= j < |m.instances| && j != k ensures OnlyQueued(m.instances[j], TickOne(m, k).instances[j]) {
        assert OnlyQueued(s.instances[j], TickOne(m, k).instances[j]) && s.instances[j] == m.instances[j];
      }
    }
  }

  // Turns before its own and after it only bring an instance more requests.
  lemma {:induction false} OthersTurns(m: Master, k: nat, n: nat, j: nat)
    requires k <= n <= |m.instances| && j < |m.instances| && (j < k || n <= j)
    ensures Grown(m, TickFrom(m, k, n))
    ensures OnlyQueued(m.instances[j], TickFrom(m, k, n).instances[j])
    decreases n - k
  {
    if k < n {
      var next := TickOne(m, k);
      TurnAges(m, k);
      OthersTurns(next, k + 1, n, j);
      GrownOn(m, next, TickFrom(m, k, n));
      assert OnlyQueued(m.instances[j], next.instances[j]);
    }
  }

  lemma {:induction false} TurnsInTwoParts(m: Master, k: nat, j: nat, n: nat)
    requires k <= j <= n <= |m.instances|
    ensures j <= |TickFrom(m, k, j).instances| && n <= |TickFrom(m, k, j).instances|
    ensures TickFrom(m, k, n) == TickFrom(TickFrom(m, k, j), j, n)
    decreases j - k
  {
    if k < j {
      TurnsInTwoParts(TickOne(m, k), k + 1, j, n);
    }
  }

  // ----- frames

  // The requests that wait for confirmation at an instance when its turn comes.
  function AtItsTurn(m: Master, k: nat): (affirmations: seq<Request>)
    requires k < |m.instances|
  {
    TurnsInTwoParts(m, 0, k, |m.instances|);
    TickFrom(m, 0, k).instances[k].affirmations
  }

  // What one frame does to the instance at k, which may be sent requests before its turn and after it.
  lemma FrameAges(m: Master, k: nat)
    returns (before: Inst)
    requires L.WellFormed(m) && k < |m.instances|
    ensures var m' := Step(m, Frame);
      && L.WellFormed(m') && Grown(m, m')
      && OnlyQueued(m.instances[k], before) && OnlyQueued(Aged(before), m'.instances[k])
      && before.affirmations == AtItsTurn(m, k)
      && (Aged(before).timeout == 900 ==>
           ShutdownRequest(before.addr) in m'.sent
           && forall r :: r in before.affirmations ==> WaitsElsewhere(m', k, before.mapId, before.cloneId, r))
  {
    var n := |m.instances|;
    L.TickKeepsOrder(m);
    TurnsInTwoParts(m, 0, k, n);
    var s := TickFrom(m, 0, k);
    OthersTurns(m, 0, k, k);
    before := s.instances[k];
    TurnAges(s, k);
    var t := TickOne(s, k);
    OthersTurns(t, k + 1, n, k);
    var m' := TickFrom(t, k + 1, n);
    assert Step(m, Frame) == m';
    GrownOn(m, s, t);
    GrownOn(m, t, m');
    WaitingOnAll(t, m', k, before);
  }

  lemma WaitingOnAll(m: Master, m': Master, k: nat, i: Inst)
    requires Grown(m, m')
    ensures forall r :: r in i.affirmations && WaitsElsewhere(m, k, i.mapId, i.cloneId, r) ==>
      WaitsElsewhere(m', k, i.mapId, i.cloneId, r)
  {
    forall r | r in i.affirmations && WaitsElsewhere(m, k, i.mapId, i.cloneId, r)
      ensures WaitsElsewhere(m', k, i.mapId, i.cloneId, r)
    {
      WaitingOn(m, m', k, i.mapId, i.cloneId, r);
    }
  }

  // A frame shuts an instance down exactly when it has waited for 899 frames and has something to confirm at its turn.
  lemma FrameShutsDown(m: Master, k: nat)
    requires L.WellFormed(m) && k < |m.instances|
    ensures k < |Step(m, Frame).instances|
    ensures var i, i' := m.instances[k], Step(m, Frame).instances[k];
      i'.shuttingDown <==> i.shuttingDown || ((i.timeout + 1) % TWO_32 == 900 && AtItsTurn(m, k) != [])
  {
    var before := FrameAges(m, k);
  }

  // So an instance that had nothing to confirm when the frame began is shut down in one case only: it had waited for
  // 899 frames when it confirmed, and is sent a request by an instance that is shut down before its turn.
  lemma IdleIsSpared(m: Master, k: nat)
    requires L.WellFormed(m) && k < |m.instances| && m.instances[k].affirmations == []
    ensures k < |Step(m, Frame).instances|
    ensures var i, i' := m.instances[k], Step(m, Frame).instances[k];
      i'.shuttingDown && !i.shuttingDown ==> (i.timeout + 1) % TWO_32 == 900 && i'.affirmations != []
  {
    var before := FrameAges(m, k);
  }

  // That case: two worlds of one zone, one of which times out and hands its request to the other.
  lemma IdleIsShutDown(m: Master, waiting: Inst, idle: Inst, request: Request)
    requires m.instances == [waiting, idle] && L.WellFormed(m)
    requires waiting.mapId == idle.mapId && waiting.cloneId == idle.cloneId && InService(idle) && idle.ready
    requires idle.clients < idle.softCap && waiting.affirmations == [request] && idle.affirmations == []
    requires waiting.timeout == idle.timeout == 899
    ensures |Step(m, Frame).instances| >= 2 && Step(m, Frame).instances[1].shuttingDown
  {
    var stopped := Stopped(m, 0);
    assert stopped.instances[1] == idle && !IsLive(stopped.instances[0]);
    assert FindInstance(stopped.instances, idle.mapId, false, idle.cloneId) == 1;
    var routed := RequestAffirmation(stopped, 1, request);
    assert Route(stopped, idle.mapId, idle.cloneId, request) == routed;
    assert [request][1..] == [];
    assert RouteAll(stopped, idle.mapId, idle.cloneId, [request]) == routed;
    assert TickOne(m, 0) == routed;
    assert TickFrom(m, 0, 1) == TickFrom(routed, 1, 1) == routed;
    FrameShutsDown(m, 1);
  }

  function Frames(n: nat): (events: seq<Event>)
    ensures |events| == n && forall k :: 0 <= k < n ==> events[k] == Frame
  {
    seq(n, _ => Frame)
  }

  lemma {:induction false} OneMoreFrame(m: Master, n: nat)
    ensures Run(m, Frames(n + 1)) == Step(Run(m, Frames(n)), Frame)
    decreases n, m
  {
    if n == 0 {
      assert Frames(1)[1..] == [] && Frames(0) == [];
      assert Run(Step(m, Frame), []) == Step(m, Frame);
    } else {
      assert Frames(n + 1)[1..] == Frames(n) && Frames(n)[1..] == Frames(n - 1);
      OneMoreFrame(Step(m, Frame), n - 1);
    }
  }

  // The instance at k is still in service after the frames, and has waited for so many more.
  predicate StillWaits(m: Master, m': Master, k: nat, n: nat)
    requires k < |m.instances|
  {
    && Grown(m, m')
    && m'.instances[k].timeout == m.instances[k].timeout + n
    && m'.instances[k].shuttingDown == m.instances[k].shuttingDown
    && m'.instances[k].addr == m.instances[k].addr
  }

  lemma FrameWaits(m: Master, k: nat)
    requires L.WellFormed(m) && k < |m.instances| && m.instances[k].affirmations != []
    requires m.instances[k].timeout + 1 < 900
    ensures L.WellFormed(Step(m, Frame)) && StillWaits(m, Step(m, Frame), k, 1)
  {
    var before := FrameAges(m, k);
  }

  lemma FrameTimesOut(m: Master, k: nat)
    requires L.WellFormed(m) && k < |m.instances| && m.instances[k].affirmations != []
    requires m.instances[k].timeout + 1 == 900
    ensures var i, m' := m.instances[k], Step(m, Frame);
      && Grown(m, m') && m'.instances[k].shuttingDown && ShutdownRequest(i.addr) in m'.sent
      && forall r :: r in i.affirmations ==> WaitsElsewhere(m', k, i.mapId, i.cloneId, r)
  {
    var before := FrameAges(m, k);
    assert m.instances[k].affirmations <= before.affirmations;
  }

  // Short of 900 frames it waits, in service if it was.
  lemma {:induction false} WaitsForConfirmation(m: Master, k: nat, n: nat)
    requires L.WellFormed(m) && k < |m.instances| && m.instances[k].affirmations != []
    requires m.instances[k].timeout + n < 900
    ensures L.WellFormed(Run(m, Frames(n))) && StillWaits(m, Run(m, Frames(n)), k, n)
    decreases n, m
  {
    if n == 0 {
      assert Frames(0) == [] && Run(m, []) == m;
    } else {
      WaitsForConfirmation(m, k, n - 1);
      OneMoreFrame(m, n - 1);
      var s := Run(m, Frames(n - 1));
      FrameWaits(s, k);
      GrownOn(m, s, Step(s, Frame));
    }
  }

  lemma LastFrame(m: Master, s: Master, k: nat, n: nat)
    requires k < |m.instances| && m.instances[k].affirmations != [] && m.instances[k].timeout + n + 1 == 900
    requires L.WellFormed(s) && StillWaits(m, s, k, n)
    ensures var i, m' := m.instances[k], Step(s, Frame);
      && Grown(m, m') && m'.instances[k].shuttingDown && ShutdownRequest(i.addr) in m'.sent
      && forall r :: r in i.affirmations ==> WaitsElsewhere(m', k, i.mapId, i.cloneId, r)
  {
    assert m.instances[k].affirmations <= s.instances[k].affirmations;
    FrameTimesOut(s, k);
    GrownOn(m, s, Step(s, Frame));
  }

  // With the 900th frame it is shut down, and every request that it was to confirm waits at another instance of the
  // same zone and clone.
  lemma TimesOut(m: Master, k: nat, n: nat)
    requires L.WellFormed(m) && k < |m.instances| && m.instances[k].affirmations != []
    requires n > 0 && m.instances[k].timeout + n == 900
    ensures var i, m' := m.instances[k], Run(m, Frames(n));
      && Grown(m, m') && m'.instances[k].shuttingDown && ShutdownRequest(i.addr) in m'.sent
      && forall r :: r in i.affirmations ==> WaitsElsewhere(m', k, i.mapId, i.cloneId, r)
  {
    var s, m' := Run(m, Frames(n - 1)), Run(m, Frames(n));
    WaitsForConfirmation(m, k, n - 1);
    assert m' == Step(s, Frame) by {
      OneMoreFrame(m, n - 1);
    }
    LastFrame(m, s, k, n - 1);
  }

  // ----- worlds that come and go

  // An address that no instance has reported from does nothing.
  lemma StrangersAreIgnored(m: Master, e: Event)
    requires e.Disconnect? || e.AffirmResponse? || e.ShutdownResponse?
    requires forall i :: i in m.instances ==> i.addr != e.from
    ensures Step(m, e) == m
  {
  }

  // A world that is lost is no longer tracked; what it was to confirm waits elsewhere, and the others stay in order.
  lemma LostWorldIsErased(m: Master, e: Event, k: nat)
    requires e.Disconnect? && k < |m.instances| && IsSender(m.instances, k, e.from)
    ensures var i, n, m' := m.instances[k], |m.instances|, Step(m, e);
      && n - 1 <= |m'.instances| && m.sent <= m'.sent
      && (forall j :: 0 <= j < k ==> OnlyQueued(m.instances[j], m'.instances[j]))
      && (forall j :: k < j < n ==> OnlyQueued(m.instances[j], m'.instances[j - 1]))
      && forall r :: r in i.affirmations ==> Waits(m', i.mapId, i.cloneId, r)
  {
    var i, m' := m.instances[k], Step(m, e);
    assert FindByAddr(m.instances, e.from) == k;
    var dead := WithInst(m, k, i.(shutdownComplete := true));
    RouteAllRoutes(dead, i.mapId, i.cloneId, i.affirmations, k);
    var routed := Redirect(dead, k);
    assert m' == routed.(instances := routed.instances[..k] + routed.instances[k + 1..]);
    ErasedButWaiting(routed, k, i);
    OthersAreQueuedAt(m.instances, dead.instances, routed.instances, k);
  }

  lemma OthersAreQueuedAt(insts: seq<Inst>, dead: seq<Inst>, routed: seq<Inst>, k: nat)
    requires k < |insts| == |dead| <= |routed| && dead == insts[k := dead[k]]
    requires forall j :: 0 <= j < |dead| ==> OnlyQueued(dead[j], routed[j])
    ensures var rest := routed[..k] + routed[k + 1..];
      && (forall j :: 0 <= j < k ==> OnlyQueued(insts[j], rest[j]))
      && (forall j :: k < j < |insts| ==> OnlyQueued(insts[j], rest[j - 1]))
  {
    forall j | 0 <= j < |insts| && j != k ensures OnlyQueued(insts[j], routed[j]) {
      assert OnlyQueued(dead[j], routed[j]);
    }
  }

  ghost predicate Waits(m: Master, mapId: nat, cloneId: nat, request: Request) {
    exists i :: i in m.instances && WaitsAt(i, mapId, cloneId, request)
  }

  lemma ErasedButWaiting(m: Master, k: nat, i: Inst)
    requires k < |m.instances|
    ensures var rest := m.(instances := m.instances[..k] + m.instances[k + 1..]);
      forall r :: WaitsElsewhere(m, k, i.mapId, i.cloneId, r) ==> Waits(rest, i.mapId, i.cloneId, r)
  {
    var rest := m.instances[..k] + m.instances[k + 1..];
    forall r | WaitsElsewhere(m, k, i.mapId, i.cloneId, r)
      ensures Waits(m.(instances := rest), i.mapId, i.cloneId, r)
    {
      var j :| 0 <= j < |m.instances| && j != k && WaitsAt(m.instances[j], i.mapId, i.cloneId, r);
      assert rest[if j < k then j else j - 1] == m.instances[j];
    }
  }

  lemma ShutdownIsNoted(m: Master, e: Event, k: nat)
    requires e.ShutdownResponse? && k < |m.instances| && IsSender(m.instances, k, e.from)
    ensures Step(m, e) == m.(instances := m.instances[k := m.instances[k].(shuttingDown := true)])
  {
    assert FindByAddr(m.instances, e.from) == k;
  }

  // A world on a port that no instance has is tracked from then on, reachable at the address it reports from.
  lemma UnknownWorldIsTracked(m: Master, e: Event)
    requires e.ServerInfo? && forall i :: i in m.instances ==> i.port != e.port
    ensures var n, m' := |m.instances|, Step(m, e);
      && |m'.instances| == n + 1 && m' == m.(instances := m.instances + [m'.instances[n]])
      && var i := m'.instances[n];
      && i.port == e.port && i.mapId == e.zoneId % TWO_16 && i.instanceId == e.instanceId % TWO_16 && i.cloneId == 0
      && i.addr == e.from && i.clients == 0 && i.softCap == i.hardCap == 12 && !i.ready && InService(i)
      && i.requests == [] && i.affirmations == []
  {
    assert e.port !in UsedPorts(m.instances) by {
      assert forall j :: 0 <= j < |m.instances| ==> m.instances[j] in m.instances;
    }
  }

  // A known one gets the address that it reports from and keeps the rest.
  lemma KnownWorldGetsAddress(m: Master, e: Event, k: nat)
    requires e.ServerInfo? && exists i :: i in m.instances && i.port == e.port
    requires k < |m.instances| && IsNamed(m.instances, k, e.zoneId % TWO_16, e.instanceId % TWO_16)
    ensures Step(m, e) == m.(instances := m.instances[k := m.instances[k].(addr := e.from)])
  {
    var i :| i in m.instances && i.port == e.port;
    var j :| 0 <= j < |m.instances| && m.instances[j] == i;
    assert UsedPorts(m.instances)[j] == e.port;
    assert FindById(m.instances, e.zoneId % TWO_16, e.instanceId % TWO_16) == k;
  }

  // One private instance for each password, which is what comes before its first NUL.
  lemma PrivateZoneIsShared(m: Master, e: Event, password: seq<char>)
    requires e.CreatePrivateZone? && password == UpTo(e.password, '\0')
    requires exists i :: i in m.instances && i.isPrivate && i.password == password
    ensures Step(m, e) == m
  {
    var i :| i in m.instances && i.isPrivate && i.password == password;
    var j :| 0 <= j < |m.instances| && m.instances[j] == i;
  }

  lemma PrivateZoneIsStarted(m: Master, e: Event, password: seq<char>)
    requires e.CreatePrivateZone? && password == UpTo(e.password, '\0')
    requires forall i :: i in m.instances ==> !(i.isPrivate && i.password == password)
    ensures var n, m' := |m.instances|, Step(m, e);
      && |m'.instances| == n + 1 && m'.instances[..n] == m.instances
      && var i := m'.instances[n];
      && i.isPrivate && i.password == password && i.mapId == e.zoneId % TWO_16 && i.cloneId == e.cloneId
      && i.instanceId == m'.lastInstanceId == (m.lastInstanceId + 1) % TWO_16
      && i.port == FreePort(m.config.basePort, UsedPorts(m.instances)) && i.softCap == i.hardCap == 999
      && m'.sent == m.sent + [StartWorld(i.mapId, i.port, i.instanceId, i.hardCap, i.cloneId)]
  {
    assert FindPrivate(m.instances, password) == |m.instances| by {
      assert forall j :: 0 <= j < |m.instances| ==> m.instances[j] in m.instances;
    }
    assert Step(m, e).instances[..|m.instances|] == m.instances;
  }

  // Preparing a zone leaves a world with room alone.
  lemma PreparedZoneIsLeft(m: Master, e: Event, i: Inst)
    requires e.PrepZone? && i in m.instances && HasRoom(i, e.zoneId % TWO_16, 0)
    ensures Step(m, e) == m
  {
    var j :| 0 <= j < |m.instances| && m.instances[j] == i;
    assert IsAvailable(m.instances[j], e.zoneId % TWO_16, false, 0);
  }

  lemma ZoneIsPrepared(m: Master, e: Event)
    requires e.PrepZone? && forall i :: i in m.instances ==> !HasRoom(i, e.zoneId % TWO_16, 0)
    ensures var n, m' := |m.instances|, Step(m, e);
      && |m'.instances| == n + 1 && m'.instances[..n] == m.instances
      && var i := m'.instances[n];
      && i.mapId == e.zoneId % TWO_16 && i.cloneId == 0 && InService(i) && !i.ready && i.requests == []
      && i.port == FreePort(m.config.basePort, UsedPorts(m.instances))
      && i.instanceId == m'.lastInstanceId == (m.lastInstanceId + 1) % TWO_16
      && m'.sent == m.sent + [StartWorld(i.mapId, i.port, i.instanceId, i.hardCap, i.cloneId)]
  {
    forall j | 0 <= j < |m.instances| ensures !IsAvailable(m.instances[j], e.zoneId % TWO_16, false, 0) {
      assert m.instances[j] in m.instances;
    }
    assert FindInstance(m.instances, e.zoneId % TWO_16, false, 0) == |m.instances|;
    assert Step(m, e).instances[..|m.instances|] == m.instances;
  }
}
