/**
  The master server's instance manager and packet handlers as objects that are updated in place
  (dMasterServer/InstanceManager.h, dMasterServer/InstanceManager.cpp, dMasterServer/MasterServer.cpp).

  Every method is proved to take the abstract state `State()` where the functions of `Instances` say.
 */
module InstanceManager {
  import opened Basics
  import opened Ports
  import opened Instances

  class Instance {
    const port: nat
    const mapId: nat
    const instanceId: nat
    const cloneId: nat
    const softCap: int
    const hardCap: int
    const isPrivate: bool
    const password: seq<char>
    var currentClientCount: int
    var sysAddr: Address
    var isReady: bool
    var isShuttingDown: bool
    var shutdownComplete: bool
    var pendingRequests: seq<Request>
    var pendingAffirmations: seq<Request>
    var affirmationTimeout: nat

    constructor (port: nat, mapId: nat, instanceId: nat, cloneId: nat, softCap: int, hardCap: int,
                 isPrivate: bool, password: seq<char>)
      ensures Value() == NewInst(port, mapId, instanceId, cloneId, softCap, hardCap, isPrivate, password)
    {
      this.port, this.mapId, this.instanceId, this.cloneId := port, mapId, instanceId, cloneId;
      this.softCap, this.hardCap, this.isPrivate, this.password := softCap, hardCap, isPrivate, password;
      currentClientCount, sysAddr := 0, UNASSIGNED;
      isReady, isShuttingDown, shutdownComplete := false, false, false;
      pendingRequests, pendingAffirmations, affirmationTimeout := [], [], 0;
    }

    ghost function Value(): Inst
      reads this
    {
      Inst(port, mapId, instanceId, cloneId, softCap, hardCap, currentClientCount, sysAddr, isReady,
           isShuttingDown, shutdownComplete, isPrivate, password, pendingRequests, pendingAffirmations,
           affirmationTimeout)
    }

    method AddPlayer()
      modifies this
      ensures Value() == old(Value()).(clients := old(currentClientCount) + 1)
    {
      currentClientCount := currentClientCount + 1;
    }

    method RemovePlayer()
      modifies this
      ensures Value()
           == old(Value()).(clients := if old(currentClientCount) <= 0 then 0 else old(currentClientCount) - 1)
    {
      currentClientCount := currentClientCount - 1;
      if currentClientCount < 0 {
        currentClientCount := 0;
      }
    }
  }

  // The state after a world with the given value has been started on a port.
  ghost function CreateOn(m: Master, port: nat, i: Inst, maxPlayers: int): Master {
    m.(instances := m.instances + [i], lastInstanceId := i.instanceId,
       sent := m.sent + [StartWorld(i.mapId, port, i.instanceId, maxPlayers, i.cloneId)])
  }

  lemma CreateIsCreateOn(m: Master, mapId: nat, cloneId: nat, softCap: int, hardCap: int, isPrivate: bool,
                         password: seq<char>)
    ensures var port, id := FreePort(m.config.basePort, UsedPorts(m.instances)), (m.lastInstanceId + 1) % TWO_16;
      Create(m, mapId, cloneId, softCap, hardCap, isPrivate, password)
      == CreateOn(m, port, NewInst(port, mapId, id, cloneId, softCap, hardCap, isPrivate, password), hardCap)
  {
  }

  lemma EraseFromLonger<T>(a: seq<T>, b: seq<T>, k: nat)
    requires a <= b && k < |a|
    ensures var c := b[..k] + b[k + 1..];
      c[..|a| - 1] == a[..k] + a[k + 1..] && forall i :: |a| - 1 <= i < |c| ==> c[i] == b[i + 1]
  {
  }

  class InstanceManager {
    const config: Config
    var instances: seq<Instance>
    var lastInstanceId: nat
    var sent: seq<Message>

    constructor (config: Config)
      ensures Valid() && State() == Master(config, [], TWO_16 - 1, [])
    {
      this.config, instances, lastInstanceId, sent := config, [], TWO_16 - 1, [];
    }

    ghost predicate Valid()
      reads this
    {
      forall i, j :: 0 <= i < j < |instances| ==> instances[i] != instances[j]
    }

    ghost function Values(): (v: seq<Inst>)
      reads this, instances
      ensures |v| == |instances| && forall k {:trigger v[k]} :: 0 <= k < |v| ==> v[k] == instances[k].Value()
    {
      seq(|instances|, k requires 0 <= k < |instances| reads this, instances => instances[k].Value())
    }

    ghost function State(): Master
      reads this, instances
    {
      Master(config, Values(), lastInstanceId, sent)
    }

    // ----- looking up

    method FindInstance(mapId: nat, isFriend: bool, cloneId: nat) returns (instance: Instance?, ghost k: nat)
      ensures k == Instances.FindInstance(Values(), mapId, isFriend, cloneId)
      ensures if k < |instances| then instance == instances[k] else instance == null
    {
      for i := 0 to |instances|
        invariant forall j :: 0 <= j < i ==> !IsAvailable(Values()[j], mapId, isFriend, cloneId)
      {
        var it := instances[i];
        assert Values()[i] == it.Value();
        var full := if isFriend then it.hardCap <= it.currentClientCount else it.softCap <= it.currentClientCount;
        if it.mapId == mapId && it.cloneId == cloneId && !full && !it.isPrivate && !it.shutdownComplete
           && !it.isShuttingDown {
          return it, i;
        }
      }
      return null, |instances|;
    }

    method FindInstanceById(mapId: nat, instanceId: nat) returns (instance: Instance?, ghost k: nat)
      ensures k == FindById(Values(), mapId, instanceId)
      ensures if k < |instances| then instance == instances[k] else instance == null
    {
      for i := 0 to |instances|
        invariant forall j :: 0 <= j < i ==> !HasId(Values()[j], mapId, instanceId)
      {
        var it := instances[i];
        assert Values()[i] == it.Value();
        if it.mapId == mapId && it.instanceId == instanceId && !it.isPrivate && !it.shutdownComplete
           && !it.isShuttingDown {
          return it, i;
        }
      }
      return null, |instances|;
    }

    method GetInstanceBySysAddr(sysAddr: Address) returns (instance: Instance?, ghost k: nat)
      ensures k == FindByAddr(Values(), sysAddr)
      ensures if k < |instances| then instance == instances[k] else instance == null
    {
      for i := 0 to |instances|
        invariant forall j :: 0 <= j < i ==> Values()[j].addr != sysAddr
      {
        assert Values()[i] == instances[i].Value();
        if instances[i].sysAddr == sysAddr {
          return instances[i], i;
        }
      }
      return null, |instances|;
    }

    method FindPrivateInstance(password: seq<char>) returns (instance: Instance?)
      ensures instance != null <==> FindPrivate(Values(), password) < |instances|
    {
      for i := 0 to |instances|
        invariant forall j :: 0 <= j < i ==> !(Values()[j].isPrivate && Values()[j].password == password)
      {
        assert Values()[i] == instances[i].Value();
        if instances[i].isPrivate && instances[i].password == password {
          return instances[i];
        }
      }
      return null;
    }

    method IsPortInUse(port: nat) returns (inUse: bool)
      ensures inUse == (port in UsedPorts(Values()))
    {
      for i := 0 to |instances|
        invariant forall j :: 0 <= j < i ==> UsedPorts(Values())[j] != port
      {
        if instances[i].port == port {
          assert UsedPorts(Values())[i] == port;
          return true;
        }
      }
      return false;
    }

    method GetFreePort() returns (port: nat)
      ensures port == FreePort(config.basePort, UsedPorts(Values()))
    {
      var usedPorts: seq<nat> := [];
      for i := 0 to |instances|
        invariant usedPorts == UsedPorts(Values())[..i]
      {
        usedPorts := usedPorts + [instances[i].port];
      }
      assert usedPorts == UsedPorts(Values());
      port := FindFreePort(config.basePort, usedPorts);
    }

    // ----- creating

    method AddInstance(instance: Instance)
      requires Valid() && instance !in instances
      modifies this
      ensures Valid() && instances == old(instances) + [instance]
      ensures State() == old(State()).(instances := old(Values()) + [instance.Value()])
    {
      instances := instances + [instance];
    }

    // Starts a world on a free port.
    method CreateInstance(mapId: nat, cloneId: nat, softCap: int, maxPlayers: int, isPrivate: bool,
                          password: seq<char>)
      returns (instance: Instance)
      requires Valid()
      modifies this
      ensures Valid() && fresh(instance) && instances == old(instances) + [instance]
      ensures State() == Create(old(State()), mapId, cloneId, softCap, maxPlayers, isPrivate, password)
    {
      var port := GetFreePort();
      ghost var before := State();
      CreateIsCreateOn(before, mapId, cloneId, softCap, maxPlayers, isPrivate, password);
      var id := (lastInstanceId + 1) % TWO_16;
      instance := new Instance(port, mapId, id, cloneId, softCap, maxPlayers, isPrivate, password);
      Launch(instance, maxPlayers);
    }

    method Launch(instance: Instance, maxPlayers: int)
      requires Valid() && instance !in instances
      modifies this
      ensures Valid() && instances == old(instances) + [instance]
      ensures State() == CreateOn(old(State()), instance.port, instance.Value(), maxPlayers)
    {
      lastInstanceId := instance.instanceId;
      sent := sent + [StartWorld(instance.mapId, instance.port, instance.instanceId, maxPlayers, instance.cloneId)];
      AddInstance(instance);
    }

    method GetInstance(mapId: nat, isFriend: bool, cloneId: nat) returns (instance: Instance, ghost k: nat)
      requires Valid()
      modifies this
      ensures Valid() && k < |instances| && instances[k] == instance
      ensures old(instances) <= instances && forall i :: |old(instances)| <= i < |instances| ==> fresh(instances[i])
      ensures (State(), k) == Instances.GetInstance(old(State()), mapId, isFriend, cloneId)
    {
      var found;
      found, k := FindInstance(mapId, isFriend, cloneId);
      if found != null {
        return found, k;
      }
      var softCap, maxPlayers := 8, 12;
      if mapId == 0 {
        softCap := 999;
        maxPlayers := softCap;
      } else {
        softCap := if mapId in config.zoneTable then config.zoneTable[mapId].soft else 8;
        maxPlayers := if mapId in config.zoneTable then config.zoneTable[mapId].hard else 12;
      }
      instance := CreateInstance(mapId, cloneId, softCap, maxPlayers, false, "");
    }

    // ----- transfers

    method ReadyInstance(instance: Instance, ghost k: nat)
      requires Valid() && k < |instances| && instances[k] == instance
      modifies this, instance
      ensures Valid() && instances == old(instances)
      ensures State() == Ready(old(State()), k)
    {
      instance.isReady := true;
      var pending := instance.pendingRequests;
      ghost var i := instance.Value();
      for n := 0 to |pending|
        invariant instances == old(instances) && lastInstanceId == old(lastInstanceId)
        invariant sent == old(sent) + Responses(old(instance.Value()), pending)[..n]
        invariant instance.Value() == i
        invariant forall j :: 0 <= j < |instances| && j != k ==> instances[j].Value() == old(instances[j].Value())
      {
        var request := pending[n];
        sent := sent + [Response(request.addr, request.id, request.mythranShift, instance.mapId,
                                 instance.instanceId, instance.cloneId, instance.port)];
      }
      instance.pendingRequests := [];
      assert Values() == old(Values())[k := instance.Value()];
    }

    method RequestAffirmation(instance: Instance, request: Request, ghost k: nat)
      requires Valid() && k < |instances| && instances[k] == instance
      modifies this, instance
      ensures Valid() && instances == old(instances)
      ensures State() == Instances.RequestAffirmation(old(State()), k, request)
    {
      instance.pendingAffirmations := instance.pendingAffirmations + [request];
      sent := sent + [AffirmRequest(instance.sysAddr, request.id)];
      assert Values() == old(Values())[k := instance.Value()];
    }

    method AddPendingRequest(instance: Instance, request: Request, ghost k: nat)
      requires Valid() && k < |instances| && instances[k] == instance
      modifies instance
      ensures var waiting := old(instance.Value()).(requests := old(instance.pendingRequests) + [request]);
        State() == WithInst(old(State()), k, waiting)
    {
      instance.pendingRequests := instance.pendingRequests + [request];
      assert Values() == old(Values())[k := instance.Value()];
    }

    method AffirmTransfer(instance: Instance, transferId: nat, ghost k: nat)
      requires Valid() && k < |instances| && instances[k] == instance
      modifies this, instance
      ensures Valid() && instances == old(instances)
      ensures State() == Affirm(old(State()), k, transferId)
    {
      var pending := instance.pendingAffirmations;
      for i := 0 to |pending|
        invariant State() == old(State()) && instances == old(instances) && pending == instance.pendingAffirmations
        invariant forall j :: 0 <= j < i ==> pending[j].id != transferId
      {
        var request := pending[i];
        if request.id == transferId {
          assert IndexOfId(pending, transferId) == i;
          sent := sent + [Response(request.addr, request.id, request.mythranShift, instance.mapId,
                                   instance.instanceId, instance.cloneId, instance.port)];
          instance.pendingAffirmations := pending[..i] + pending[i + 1..];
          assert Values() == old(Values())[k := instance.Value()];
          return;
        }
      }
    }

    // Queues a request at the instance for a map and clone, or asks that instance to confirm it.
    method RouteRequest(mapId: nat, cloneId: nat, request: Request)
      requires Valid()
      modifies this, instances
      ensures Valid() && old(instances) <= instances
      ensures forall i :: |old(instances)| <= i < |instances| ==> fresh(instances[i])
      ensures State() == Route(old(State()), mapId, cloneId, request)
    {
      var target, t := GetInstance(mapId, false, cloneId);
      if !target.isReady {
        AddPendingRequest(target, request, t);
      } else {
        RequestAffirmation(target, request, t);
      }
    }

    // Requires what makes the walk safe: the instance has been taken out of service.
    method RedirectPendingRequests(instance: Instance, ghost k: nat)
      requires Valid() && k < |instances| && instances[k] == instance
      requires !IsLive(instance.Value())
      modifies this, instances
      ensures Valid() && old(instances) <= instances
      ensures forall i :: |old(instances)| <= i < |instances| ==> fresh(instances[i])
      ensures instance.Value() == old(instance.Value())
      ensures State() == Redirect(old(State()), k)
    {
      ghost var requests, mapId, cloneId := instance.pendingAffirmations, instance.mapId, instance.cloneId;
      var n := 0;
      while n < |instance.pendingAffirmations|
        invariant Valid() && old(instances) <= instances
        invariant forall i :: |old(instances)| <= i < |instances| ==> fresh(instances[i])
        invariant instance.Value() == old(instance.Value()) && n <= |requests|
        invariant RouteAll(State(), mapId, cloneId, requests[n..]) == RouteAll(old(State()), mapId, cloneId, requests)
        decreases |requests| - n
      {
        var request := instance.pendingAffirmations[n];
        assert requests[n..][1..] == requests[n + 1..];
        RouteKeepsIndices(State(), mapId, cloneId, request);
        assert Values()[k] == instance.Value();
        RouteRequest(instance.mapId, instance.cloneId, request);
        assert Values()[k] == instance.Value();
        n := n + 1;
      }
    }

    method RemoveInstance(instance: Instance, ghost k: nat)
      requires Valid() && k < |instances| && instances[k] == instance
      modifies this, instances
      ensures Valid() && State() == Remove(old(State()), k)
      ensures |instances| >= |old(instances)| - 1
      ensures instances[..|old(instances)| - 1] == old(instances)[..k] + old(instances)[k + 1..]
      ensures forall i :: |old(instances)| - 1 <= i < |instances| ==> fresh(instances[i])
    {
      var i := 0;
      while instances[i] != instance
        invariant i <= k
        decreases k - i
      {
        i := i + 1;
      }
      assert i == k;
      instance.shutdownComplete := true;
      assert Values() == old(Values())[k := instance.Value()];
      RedirectPendingRequests(instance, k);
      EraseFromLonger(old(instances), instances, k);
      Erase(i);
    }

    method Erase(k: nat)
      requires Valid() && k < |instances|
      modifies this
      ensures Valid() && instances == old(instances)[..k] + old(instances)[k + 1..]
      ensures State() == old(State()).(instances := old(Values())[..k] + old(Values())[k + 1..])
    {
      instances := instances[..k] + instances[k + 1..];
      assert Values() == old(Values())[..k] + old(Values())[k + 1..];
    }
  }

  class MasterServer {
    const im: InstanceManager

    constructor (config: Config)
      ensures im.Valid() && im.State() == Master(config, [], TWO_16 - 1, [])
    {
      im := new InstanceManager(config);
    }

    // Ages the instances that were tracked when the frame began and shuts down those that do not confirm.
    method AgeInstances(tracked: seq<Instance>)
      requires im.Valid() && tracked == im.instances
      modifies im, im.instances
      ensures im.Valid() && tracked <= im.instances
      ensures forall i :: |tracked| <= i < |im.instances| ==> fresh(im.instances[i])
      ensures im.State() == TickFrom(old(im.State()), 0, |tracked|)
    {
      for k := 0 to |tracked|
        invariant im.Valid() && tracked <= im.instances
        invariant forall i :: |tracked| <= i < |im.instances| ==> fresh(im.instances[i])
        invariant TickFrom(im.State(), k, |tracked|) == TickFrom(old(im.State()), 0, |tracked|)
      {
        AgeInstance(tracked[k], k);
      }
    }

    method AgeInstance(instance: Instance, ghost k: nat)
      requires im.Valid() && k < |im.instances| && im.instances[k] == instance
      modifies im, im.instances
      ensures im.Valid() && old(im.instances) <= im.instances
      ensures forall i :: |old(im.instances)| <= i < |im.instances| ==> fresh(im.instances[i])
      ensures im.State() == TickOne(old(im.State()), k)
    {
      var affirmTimeout := CountFrame(instance, k);
      if affirmTimeout == READY_TIMEOUT {
        StopInstance(instance, k, old(im.State()));
        im.RedirectPendingRequests(instance, k);
      }
    }

    method StopInstance(instance: Instance, ghost k: nat, ghost m: Master)
      requires im.Valid() && k < |im.instances| && im.instances[k] == instance
      requires k < |m.instances| && im.State() == WithInst(m, k, m.instances[k].(timeout := TimeOut(m.instances[k])))
      modifies im`sent, instance`isShuttingDown
      ensures im.State() == Stopped(m, k) && !IsLive(instance.Value())
    {
      assert instance.Value() == im.Values()[k];
      im.sent := im.sent + [ShutdownRequest(instance.sysAddr)];
      instance.isShuttingDown := true;
      assert im.Values() == old(im.Values())[k := instance.Value()];
    }

    // Counts the frame against the timeout when an answer is outstanding, and starts afresh otherwise.
    method CountFrame(instance: Instance, ghost k: nat) returns (affirmTimeout: nat)
      requires im.Valid() && k < |im.instances| && im.instances[k] == instance
      modifies instance`affirmationTimeout
      ensures affirmTimeout == TimeOut(old(im.State()).instances[k])
      ensures im.State() == WithInst(old(im.State()), k, old(im.State()).instances[k].(timeout := affirmTimeout))
    {
      affirmTimeout := instance.affirmationTimeout;
      if instance.pendingAffirmations != [] {
        affirmTimeout := (affirmTimeout + 1) % TWO_32;
      } else {
        affirmTimeout := 0;
      }
      instance.affirmationTimeout := affirmTimeout;
      assert im.Values() == old(im.Values())[k := instance.Value()];
    }

    method RemoveDeadInstances(tracked: seq<Instance>)
      requires im.Valid() && tracked <= im.instances
      modifies im, im.instances
      ensures im.Valid() && im.State() == RemoveDead(old(im.State()), 0, |tracked|)
    {
      var kept := 0;
      var rest := tracked;
      ghost var swept := RemoveDead(im.State(), 0, |tracked|);
      assert rest <= im.instances[0..];
      while rest != []
        invariant im.Valid()
        invariant 0 <= kept <= |im.instances| && rest <= im.instances[kept..]
        invariant forall x :: x in im.instances ==> x in old(im.instances) || fresh(x)
        invariant RemoveDead(im.State(), kept, |rest|) == swept
        decreases |rest|
      {
        assert rest[0] == im.instances[kept..][0];
        assert forall i :: 0 <= i < |im.instances| ==> im.instances[i] in old(im.instances) || fresh(im.instances[i]);
        kept := SweepOne(rest[0], kept, rest);
        rest := rest[1..];
      }
    }

    // Handles the instance at position k, the first of the rest of the sweep.
    method SweepOne(instance: Instance, k: nat, ghost rest: seq<Instance>) returns (next: nat)
      requires im.Valid() && k < |im.instances| && im.instances[k] == instance
      requires rest != [] && rest <= im.instances[k..]
      modifies im, im.instances
      ensures im.Valid() && next <= |im.instances| && rest[1..] <= im.instances[next..]
      ensures forall x :: x in im.instances ==> x in old(im.instances) || fresh(x)
      ensures RemoveDead(im.State(), next, |rest| - 1) == RemoveDead(old(im.State()), k, |rest|)
    {
      ghost var before := im.instances;
      if instance.shutdownComplete {
        im.RemoveInstance(instance, k);
        RestMovesUp(before, im.instances, k, rest);
        next := k;
        forall i | 0 <= i < |im.instances| ensures im.instances[i] in before || fresh(im.instances[i]) {
          if i < |before| - 1 {
            assert im.instances[i] == im.instances[..|before| - 1][i] == before[if i < k then i else i + 1];
          }
        }
      } else {
        next := k + 1;
        assert before[k..][1..] == before[k + 1..];
      }
    }

    lemma RestMovesUp(before: seq<Instance>, after: seq<Instance>, k: nat, rest: seq<Instance>)
      requires k < |before| && |after| >= |before| - 1
      requires after[..|before| - 1] == before[..k] + before[k + 1..]
      requires rest != [] && rest <= before[k..]
      ensures rest[1..] <= after[k..]
    {
      forall i | 0 <= i < |rest| - 1 ensures rest[1..][i] == after[k..][i] {
        assert rest[i + 1] == before[k..][i + 1] == before[k + 1..][i];
        assert after[k + i] == after[..|before| - 1][k + i] == (before[..k] + before[k + 1..])[k + i];
      }
    }

    method Frame()
      requires im.Valid()
      modifies im, im.instances
      ensures im.Valid() && im.State() == Tick(old(im.State()))
    {
      var tracked := im.instances;
      AgeInstances(tracked);
      RemoveDeadInstances(tracked);
    }

    // ----- packets

    method HandleRequestZoneTransfer(id: nat, mythranShift: bool, zoneId: nat, zoneClone: nat, from: Address)
      requires im.Valid()
      modifies im, im.instances
      ensures im.Valid()
      ensures im.State() == Step(old(im.State()), RequestTransfer(id, mythranShift, zoneId, zoneClone, from))
    {
      im.RouteRequest(zoneId % TWO_16, zoneClone, Request(id, mythranShift, from));
    }

    method HandlePrepZone(zoneId: nat)
      requires im.Valid()
      modifies im, im.instances
      ensures im.Valid() && im.State() == Step(old(im.State()), PrepZone(zoneId))
    {
      var _, _ := im.GetInstance(zoneId % TWO_16, false, 0);
    }

    method HandleWorldReady(mapId: nat, instanceId: nat)
      requires im.Valid()
      modifies im, im.instances
      ensures im.Valid() && im.State() == Step(old(im.State()), WorldReady(mapId, instanceId))
    {
      var instance, k := im.FindInstanceById(mapId, instanceId);
      if instance != null {
        im.ReadyInstance(instance, k);
      }
    }

    method HandleAffirmResponse(id: nat, from: Address)
      requires im.Valid()
      modifies im, im.instances
      ensures im.Valid() && im.State() == Step(old(im.State()), AffirmResponse(id, from))
    {
      var instance, k := im.GetInstanceBySysAddr(from);
      if instance != null {
        im.AffirmTransfer(instance, id, k);
      }
    }

    method HandleDisconnect(from: Address)
      requires im.Valid()
      modifies im, im.instances
      ensures im.Valid() && im.State() == Step(old(im.State()), Disconnect(from))
    {
      var instance, k := im.GetInstanceBySysAddr(from);
      if instance != null {
        im.RemoveInstance(instance, k);
      }
    }

    method HandleServerInfo(port: nat, zoneId: nat, instanceId: nat, from: Address)
      requires im.Valid()
      modifies im, im.instances
      ensures im.Valid() && im.State() == Step(old(im.State()), ServerInfo(port, zoneId, instanceId, from))
    {
      var inUse := im.IsPortInUse(port);
      if !inUse {
        var instance := new Instance(port, zoneId % TWO_16, instanceId % TWO_16, 0, 12, 12, false, "");
        instance.sysAddr := from;
        assert im.Values() == old(im.Values());
        im.AddInstance(instance);
      } else {
        UpdateAddress(zoneId % TWO_16, instanceId % TWO_16, from);
      }
    }

    method UpdateAddress(mapId: nat, instanceId: nat, from: Address)
      requires im.Valid()
      modifies im.instances
      ensures im.Valid()
      ensures var m := old(im.State());
        var k := FindById(m.instances, mapId, instanceId);
        im.State() == if k == |m.instances| then m else WithInst(m, k, m.instances[k].(addr := from))
    {
      var instance, k := im.FindInstanceById(mapId, instanceId);
      if instance != null {
        assert im.Values()[k] == instance.Value();
        instance.sysAddr := from;
        assert im.Values() == old(im.Values())[k := instance.Value()];
      }
    }

    method HandlePlayerAdded(mapId: nat, instanceId: nat)
      requires im.Valid()
      modifies im.instances
      ensures im.Valid() && im.State() == Step(old(im.State()), PlayerAdded(mapId, instanceId))
    {
      var instance, k := im.FindInstanceById(mapId, instanceId);
      if instance != null {
        instance.AddPlayer();
        assert im.Values() == old(im.Values())[k := instance.Value()];
      }
    }

    method HandlePlayerRemoved(mapId: nat, instanceId: nat)
      requires im.Valid()
      modifies im.instances
      ensures im.Valid() && im.State() == Step(old(im.State()), PlayerRemoved(mapId, instanceId))
    {
      var instance, k := im.FindInstanceById(mapId, instanceId);
      if instance != null {
        instance.RemovePlayer();
        assert im.Values() == old(im.Values())[k := instance.Value()];
      }
    }

    method HandleCreatePrivateZone(zoneId: nat, cloneId: nat, password: seq<char>)
      requires im.Valid()
      modifies im, im.instances
      ensures im.Valid() && im.State() == Step(old(im.State()), CreatePrivateZone(zoneId, cloneId, password))
    {
      var text := UpTo(password, '\0');
      var instance := im.FindPrivateInstance(text);
      if instance == null {
        var _ := im.CreateInstance(zoneId % TWO_16, cloneId, 999, 999, true, text);
      }
    }

    method HandleShutdownResponse(from: Address)
      requires im.Valid()
      modifies im.instances
      ensures im.Valid() && im.State() == Step(old(im.State()), ShutdownResponse(from))
    {
      var instance, k := im.GetInstanceBySysAddr(from);
      if instance != null {
        instance.isShuttingDown := true;
        assert im.Values() == old(im.Values())[k := instance.Value()];
      }
    }

    method Handle(e: Event)
      requires im.Valid()
      modifies im, im.instances
      ensures im.Valid() && im.State() == Step(old(im.State()), e)
    {
      match e {
        case RequestTransfer(id, mythranShift, zoneId, zoneClone, from) =>
          HandleRequestZoneTransfer(id, mythranShift, zoneId, zoneClone, from);
        case PrepZone(zoneId) => HandlePrepZone(zoneId);
        case WorldReady(mapId, instanceId) => HandleWorldReady(mapId, instanceId);
        case AffirmResponse(id, from) => HandleAffirmResponse(id, from);
        case Frame => Frame();
        case Disconnect(from) => HandleDisconnect(from);
        case ServerInfo(port, zoneId, instanceId, from) => HandleServerInfo(port, zoneId, instanceId, from);
        case PlayerAdded(mapId, instanceId) => HandlePlayerAdded(mapId, instanceId);
        case PlayerRemoved(mapId, instanceId) => HandlePlayerRemoved(mapId, instanceId);
        case CreatePrivateZone(zoneId, cloneId, password) => HandleCreatePrivateZone(zoneId, cloneId, password);
        case ShutdownResponse(from) => HandleShutdownResponse(from);
      }
    }
  }
}
