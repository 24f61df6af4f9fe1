/**
  The master server's bookkeeping of world instances and zone transfers, on values
  (dMasterServer/InstanceManager.cpp, dMasterServer/MasterServer.cpp).

  `Step` is one packet, or one frame of the main loop.
 */
module Instances {
  import opened Basics
  import opened Ports

  type Address = nat

  // The address of an instance that has not reported in yet; no packet comes from it.
  const UNASSIGNED: Address := 0
  const READY_TIMEOUT: nat := 900

  datatype Request = Request(id: nat, mythranShift: bool, addr: Address)

  datatype Inst = Inst(
    port: nat, mapId: nat, instanceId: nat, cloneId: nat,
    softCap: int, hardCap: int, clients: int,
    addr: Address, ready: bool, shuttingDown: bool, shutdownComplete: bool,
    isPrivate: bool, password: seq<char>,
    requests: seq<Request>, affirmations: seq<Request>, timeout: nat)

  datatype Message =
    | Response(to: Address, id: nat, mythranShift: bool, mapId: nat, instanceId: nat, cloneId: nat, port: nat)
    | AffirmRequest(to: Address, id: nat)
    | ShutdownRequest(to: Address)
    | StartWorld(mapId: nat, port: nat, instanceId: nat, maxPlayers: int, cloneId: nat)

  datatype Caps = Caps(soft: int, hard: int)

  // The zone table of the client database and the first port to hand out.
  datatype Config = Config(basePort: nat, zoneTable: map<nat, Caps>)

  datatype Master = Master(config: Config, instances: seq<Inst>, lastInstanceId: nat, sent: seq<Message>)

  // ----- finding instances

  function FirstIndex(insts: seq<Inst>, p: Inst -> bool): (k: nat)
    ensures k <= |insts|
    ensures k < |insts| ==> p(insts[k])
    ensures forall j :: 0 <= j < k ==> !p(insts[j])
  {
    if insts == [] || p(insts[0]) then 0 else FirstIndex(insts[1..], p) + 1
  }

  predicate IsFull(i: Inst, isFriend: bool) {
    if isFriend then i.hardCap <= i.clients else i.softCap <= i.clients
  }

  predicate IsLive(i: Inst) {
    !i.isPrivate && !i.shutdownComplete && !i.shuttingDown
  }

  predicate IsAvailable(i: Inst, mapId: nat, isFriend: bool, cloneId: nat) {
    i.mapId == mapId && i.cloneId == cloneId && !IsFull(i, isFriend) && IsLive(i)
  }

  predicate HasId(i: Inst, mapId: nat, instanceId: nat) {
    i.mapId == mapId && i.instanceId == instanceId && IsLive(i)
  }

  function FindInstance(insts: seq<Inst>, mapId: nat, isFriend: bool, cloneId: nat): nat {
    FirstIndex(insts, (i: Inst) => IsAvailable(i, mapId, isFriend, cloneId))
  }

  function FindById(insts: seq<Inst>, mapId: nat, instanceId: nat): nat {
    FirstIndex(insts, (i: Inst) => HasId(i, mapId, instanceId))
  }

  function FindByAddr(insts: seq<Inst>, addr: Address): nat {
    FirstIndex(insts, (i: Inst) => i.addr == addr)
  }

  function FindPrivate(insts: seq<Inst>, password: seq<char>): nat {
    FirstIndex(insts, (i: Inst) => i.isPrivate && i.password == password)
  }

  function UsedPorts(insts: seq<Inst>): (ports: seq<nat>)
    ensures |ports| == |insts|
  {
    seq(|insts|, k requires 0 <= k < |insts| => insts[k].port)
  }

  // ----- creating instances

  function SoftCap(c: Config, mapId: nat): int {
    if mapId == 0 then 999 else if mapId in c.zoneTable then c.zoneTable[mapId].soft else 8
  }

  function HardCap(c: Config, mapId: nat): int {
    if mapId == 0 then 999 else if mapId in c.zoneTable then c.zoneTable[mapId].hard else 12
  }

  function NewInst(port: nat, mapId: nat, instanceId: nat, cloneId: nat, softCap: int, hardCap: int,
                   isPrivate: bool, password: seq<char>): Inst {
    Inst(port, mapId, instanceId, cloneId, softCap, hardCap, 0, UNASSIGNED, false, false, false,
         isPrivate, password, [], [], 0)
  }

  // Starts a world on a free port and tracks it.
  function Create(m: Master, mapId: nat, cloneId: nat, softCap: int, hardCap: int, isPrivate: bool,
                  password: seq<char>): Master {
    var port := FreePort(m.config.basePort, UsedPorts(m.instances));
    var id := (m.lastInstanceId + 1) % TWO_16;
    m.(instances := m.instances + [NewInst(port, mapId, id, cloneId, softCap, hardCap, isPrivate, password)],
       lastInstanceId := id,
       sent := m.sent + [StartWorld(mapId, port, id, hardCap, cloneId)])
  }

  // The instance to use for a map and clone, created if there is none.
  function GetInstance(m: Master, mapId: nat, isFriend: bool, cloneId: nat): (r: (Master, nat))
    ensures r.1 < |r.0.instances|
    ensures IsAvailable(r.0.instances[r.1], mapId, isFriend, cloneId) || r.1 == |m.instances|
    ensures r.0.instances[r.1].mapId == mapId && r.0.instances[r.1].cloneId == cloneId
    ensures |m.instances| <= |r.0.instances|
    ensures forall k :: 0 <= k < |m.instances| ==> r.0.instances[k] == m.instances[k]
  {
    var k := FindInstance(m.instances, mapId, isFriend, cloneId);
    if k < |m.instances| then (m, k)
    else (Create(m, mapId, cloneId, SoftCap(m.config, mapId), HardCap(m.config, mapId), false, ""), k)
  }

  // ----- transfers

  function WithInst(m: Master, k: nat, i: Inst): Master
    requires k < |m.instances|
  {
    m.(instances := m.instances[k := i])
  }

  function RequestAffirmation(m: Master, k: nat, request: Request): Master
    requires k < |m.instances|
  {
    var i := m.instances[k];
    var asked := i.(affirmations := i.affirmations + [request]);
    WithInst(m, k, asked).(sent := m.sent + [AffirmRequest(i.addr, request.id)])
  }

  // Queues a request at an instance that is not ready yet, or asks a ready one to confirm it.
  function Route(m: Master, mapId: nat, cloneId: nat, request: Request): Master {
    var (m', k) := GetInstance(m, mapId, false, cloneId);
    var i := m'.instances[k];
    if !i.ready then WithInst(m', k, i.(requests := i.requests + [request]))
    else RequestAffirmation(m', k, request)
  }

  function RouteAll(m: Master, mapId: nat, cloneId: nat, requests: seq<Request>): (m': Master)
    ensures m'.config == m.config
    decreases |requests|
  {
    if requests == [] then m else RouteAll(Route(m, mapId, cloneId, requests[0]), mapId, cloneId, requests[1..])
  }

  function ResponseOf(i: Inst, request: Request): Message {
    Response(request.addr, request.id, request.mythranShift, i.mapId, i.instanceId, i.cloneId, i.port)
  }

  function Responses(i: Inst, requests: seq<Request>): (out: seq<Message>)
    ensures |out| == |requests|
  {
    seq(|requests|, k requires 0 <= k < |requests| => ResponseOf(i, requests[k]))
  }

  function Ready(m: Master, k: nat): Master
    requires k < |m.instances|
  {
    var i := m.instances[k];
    WithInst(m, k, i.(ready := true, requests := [])).(sent := m.sent + Responses(i, i.requests))
  }

  function IndexOfId(requests: seq<Request>, id: nat): (k: nat)
    ensures k <= |requests|
    ensures k < |requests| ==> requests[k].id == id
    ensures forall j :: 0 <= j < k ==> requests[j].id != id
  {
    if requests == [] || requests[0].id == id then 0 else IndexOfId(requests[1..], id) + 1
  }

  // Answers the first request with the given id that waits for this instance's confirmation.
  function Affirm(m: Master, k: nat, id: nat): Master
    requires k < |m.instances|
  {
    var i := m.instances[k];
    var j := IndexOfId(i.affirmations, id);
    if j == |i.affirmations| then m
    else WithInst(m, k, i.(affirmations := i.affirmations[..j] + i.affirmations[j + 1..]))
         .(sent := m.sent + [ResponseOf(i, i.affirmations[j])])
  }

  // Routes what waits for confirmation to other instances; the instance keeps its own list.
  function Redirect(m: Master, k: nat): Master
    requires k < |m.instances|
  {
    var i := m.instances[k];
    RouteAll(m, i.mapId, i.cloneId, i.affirmations)
  }

  // Tracked instances only ever gain successors while requests are routed.
  lemma RouteKeepsIndices(m: Master, mapId: nat, cloneId: nat, request: Request)
    ensures |m.instances| <= |Route(m, mapId, cloneId, request).instances|
    ensures forall k :: 0 <= k < |m.instances| ==>
              var i, i' := m.instances[k], Route(m, mapId, cloneId, request).instances[k];
              i'.(requests := i.requests, affirmations := i.affirmations) == i
              && (!IsLive(i) ==> i' == i)
  {
  }

  lemma {:induction false} RouteAllKeepsIndices(m: Master, mapId: nat, cloneId: nat, requests: seq<Request>)
    ensures var m' := RouteAll(m, mapId, cloneId, requests);
      && |m.instances| <= |m'.instances|
      && forall k :: 0 <= k < |m.instances| && !IsLive(m.instances[k]) ==> m'.instances[k] == m.instances[k]
    decreases |requests|
  {
    if requests != [] {
      RouteKeepsIndices(m, mapId, cloneId, requests[0]);
      RouteAllKeepsIndices(Route(m, mapId, cloneId, requests[0]), mapId, cloneId, requests[1..]);
    }
  }

  function Remove(m: Master, k: nat): (r: Master)
    requires k < |m.instances|
    ensures r.config == m.config && |r.instances| >= |m.instances| - 1
  {
    var m' := Redirect(WithInst(m, k, m.instances[k].(shutdownComplete := true)), k);
    RouteAllKeepsIndices(WithInst(m, k, m.instances[k].(shutdownComplete := true)),
                         m.instances[k].mapId, m.instances[k].cloneId, m.instances[k].affirmations);
    m'.(instances := m'.instances[..k] + m'.instances[k + 1..])
  }

  // ----- one frame

  function TimeOut(i: Inst): nat {
    if i.affirmations != [] then (i.timeout + 1) % TWO_32 else 0
  }

  function Stopped(m: Master, k: nat): Master
    requires k < |m.instances|
  {
    var i := m.instances[k];
    WithInst(m, k, i.(timeout := TimeOut(i), shuttingDown := true)).(sent := m.sent + [ShutdownRequest(i.addr)])
  }

  function TickOne(m: Master, k: nat): (m': Master)
    requires k < |m.instances|
    ensures |m.instances| <= |m'.instances| && m'.config == m.config
  {
    var i := m.instances[k];
    if TimeOut(i) != READY_TIMEOUT then WithInst(m, k, i.(timeout := TimeOut(i)))
    else
      RouteAllKeepsIndices(Stopped(m, k), i.mapId, i.cloneId, i.affirmations);
      Redirect(Stopped(m, k), k)
  }

  // Ages the instances from k up to n, those that were tracked when the frame began.
  function TickFrom(m: Master, k: nat, n: nat): (m': Master)
    requires k <= n <= |m.instances|
    ensures n <= |m'.instances| && m'.config == m.config
    decreases n - k
  {
    if k == n then m else TickFrom(TickOne(m, k), k + 1, n)
  }

  // Of the next n instances from k on, removes those whose shutdown is complete.
  function RemoveDead(m: Master, k: nat, n: nat): (m': Master)
    requires k + n <= |m.instances|
    ensures m'.config == m.config
    decreases n
  {
    if n == 0 then m
    else if m.instances[k].shutdownComplete then RemoveDead(Remove(m, k), k, n - 1)
    else RemoveDead(m, k + 1, n - 1)
  }

  function Tick(m: Master): (m': Master)
    ensures m'.config == m.config
  {
    RemoveDead(TickFrom(m, 0, |m.instances|), 0, |m.instances|)
  }

  // ----- packets

  datatype Event =
    | RequestTransfer(id: nat, mythranShift: bool, zoneId: nat, cloneId: nat, from: Address)
    | PrepZone(zoneId: nat)
    | WorldReady(mapId: nat, instanceId: nat)
    | AffirmResponse(id: nat, from: Address)
    | Frame
    | Disconnect(from: Address)
    | ServerInfo(port: nat, zoneId: nat, instanceId: nat, from: Address)
    | PlayerAdded(mapId: nat, instanceId: nat)
    | PlayerRemoved(mapId: nat, instanceId: nat)
    | CreatePrivateZone(zoneId: nat, cloneId: nat, password: seq<char>)
    | ShutdownResponse(from: Address)

  function CountPlayers(m: Master, mapId: nat, instanceId: nat, delta: int): Master {
    var k := FindById(m.instances, mapId, instanceId);
    if k == |m.instances| then m
    else
      var clients := m.instances[k].clients + delta;
      WithInst(m, k, m.instances[k].(clients := if delta < 0 && clients < 0 then 0 else clients))
  }

  // A world that the master does not know, told apart by its port, is tracked again.
  function TrackWorld(m: Master, port: nat, zoneId: nat, instanceId: nat, from: Address): Master {
    if port !in UsedPorts(m.instances) then
      m.(instances := m.instances
         + [NewInst(port, zoneId % TWO_16, instanceId % TWO_16, 0, 12, 12, false, "").(addr := from)])
    else
      var k := FindById(m.instances, zoneId % TWO_16, instanceId % TWO_16);
      if k == |m.instances| then m else WithInst(m, k, m.instances[k].(addr := from))
  }

  // Zone ids arrive with 32 bits and are cut to the 16 of a map id.
  function Step(m: Master, e: Event): (m': Master)
    ensures m'.config == m.config
  {
    match e
    case RequestTransfer(id, mythranShift, zoneId, cloneId, from) =>
      Route(m, zoneId % TWO_16, cloneId, Request(id, mythranShift, from))
    case PrepZone(zoneId) => GetInstance(m, zoneId % TWO_16, false, 0).0
    case WorldReady(mapId, instanceId) =>
      var k := FindById(m.instances, mapId, instanceId);
      if k == |m.instances| then m else Ready(m, k)
    case AffirmResponse(id, from) =>
      var k := FindByAddr(m.instances, from);
      if k == |m.instances| then m else Affirm(m, k, id)
    case Frame => Tick(m)
    case Disconnect(from) =>
      var k := FindByAddr(m.instances, from);
      if k == |m.instances| then m else Remove(m, k)
    case ServerInfo(port, zoneId, instanceId, from) => TrackWorld(m, port, zoneId, instanceId, from)
    case PlayerAdded(mapId, instanceId) => CountPlayers(m, mapId, instanceId, 1)
    case PlayerRemoved(mapId, instanceId) => CountPlayers(m, mapId, instanceId, -1)
    case CreatePrivateZone(zoneId, cloneId, password) =>
      if FindPrivate(m.instances, UpTo(password, '\0')) < |m.instances| then m
      else Create(m, zoneId % TWO_16, cloneId, 999, 999, true, UpTo(password, '\0'))
    case ShutdownResponse(from) =>
      var k := FindByAddr(m.instances, from);
      if k == |m.instances| then m else WithInst(m, k, m.instances[k].(shuttingDown := true))
  }

  function Run(m: Master, events: seq<Event>): Master
    decreases |events|
  {
    if events == [] then m else Run(Step(m, events[0]), events[1..])
  }
}
