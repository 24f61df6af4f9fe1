/**
  Ports over whole runs of the master server: while every world that reports in by itself does so on a lattice
  port, the three-port blocks of the tracked instances never overlap.
 */
module InstancePorts {
  import opened Basics
  import opened Ports
  import opened Instances

  predicate PortsKept(m: Master) {
    PortsOk(m.config.basePort, UsedPorts(m.instances))
  }

  lemma CreateKeepsPorts(m: Master, mapId: nat, cloneId: nat, softCap: int, hardCap: int, isPrivate: bool,
                         password: seq<char>)
    requires PortsKept(m)
    ensures PortsKept(Create(m, mapId, cloneId, softCap, hardCap, isPrivate, password))
  {
    var m' := Create(m, mapId, cloneId, softCap, hardCap, isPrivate, password);
    LatticeIsKept(m.config.basePort, UsedPorts(m.instances));
    assert UsedPorts(m'.instances)
        == UsedPorts(m.instances) + [FreePort(m.config.basePort, UsedPorts(m.instances))];
  }

  lemma UpdateKeepsPorts(m: Master, k: nat, i: Inst)
    requires k < |m.instances| && i.port == m.instances[k].port
    ensures UsedPorts(WithInst(m, k, i).instances) == UsedPorts(m.instances)
  {
  }

  lemma RouteKeepsPorts(m: Master, mapId: nat, cloneId: nat, request: Request)
    requires PortsKept(m)
    ensures PortsKept(Route(m, mapId, cloneId, request))
  {
    CreateKeepsPorts(m, mapId, cloneId, SoftCap(m.config, mapId), HardCap(m.config, mapId), false, "");
    var (m', k) := GetInstance(m, mapId, false, cloneId);
    assert UsedPorts(Route(m, mapId, cloneId, request).instances) == UsedPorts(m'.instances);
  }

  lemma {:induction false} RouteAllKeepsPorts(m: Master, mapId: nat, cloneId: nat, requests: seq<Request>)
    requires PortsKept(m)
    ensures PortsKept(RouteAll(m, mapId, cloneId, requests))
    decreases |requests|
  {
    if requests != [] {
      RouteKeepsPorts(m, mapId, cloneId, requests[0]);
      RouteAllKeepsPorts(Route(m, mapId, cloneId, requests[0]), mapId, cloneId, requests[1..]);
    }
  }

  lemma RemoveKeepsPorts(m: Master, k: nat)
    requires k < |m.instances| && PortsKept(m)
    ensures PortsKept(Remove(m, k))
  {
    var i := m.instances[k];
    var dead := WithInst(m, k, i.(shutdownComplete := true));
    UpdateKeepsPorts(m, k, i.(shutdownComplete := true));
    RouteAllKeepsPorts(dead, i.mapId, i.cloneId, i.affirmations);
    RouteAllKeepsIndices(dead, i.mapId, i.cloneId, i.affirmations);
    var before, after := UsedPorts(Redirect(dead, k).instances), UsedPorts(Remove(m, k).instances);
    assert forall j :: 0 <= j < |after| ==> after[j] == before[if j < k then j else j + 1];
  }

  lemma TickOneKeepsPorts(m: Master, k: nat)
    requires k < |m.instances| && PortsKept(m)
    ensures PortsKept(TickOne(m, k))
  {
    var i := m.instances[k];
    UpdateKeepsPorts(m, k, i.(timeout := TimeOut(i)));
    if TimeOut(i) == READY_TIMEOUT {
      var aged := i.(timeout := TimeOut(i), shuttingDown := true);
      UpdateKeepsPorts(m, k, aged);
      var stopped := WithInst(m, k, aged).(sent := m.sent + [ShutdownRequest(i.addr)]);
      RouteAllKeepsPorts(stopped, i.mapId, i.cloneId, i.affirmations);
    }
  }

  lemma {:induction false} TickFromKeepsPorts(m: Master, k: nat, n: nat)
    requires k <= n <= |m.instances| && PortsKept(m)
    ensures PortsKept(TickFrom(m, k, n))
    decreases n - k
  {
    if k < n {
      TickOneKeepsPorts(m, k);
      TickFromKeepsPorts(TickOne(m, k), k + 1, n);
    }
  }

  lemma {:induction false} RemoveDeadKeepsPorts(m: Master, k: nat, n: nat)
    requires k + n <= |m.instances| && PortsKept(m)
    ensures PortsKept(RemoveDead(m, k, n))
    decreases n
  {
    if n > 0 {
      if m.instances[k].shutdownComplete {
        RemoveKeepsPorts(m, k);
        RemoveDeadKeepsPorts(Remove(m, k), k, n - 1);
      } else {
        RemoveDeadKeepsPorts(m, k + 1, n - 1);
      }
    }
  }

  // A step keeps the ports on the lattice unless a world reports in on an unknown port off the lattice.
  lemma StepKeepsPorts(m: Master, e: Event)
    requires PortsKept(m)
    ensures PortsKept(Step(m, e)) <==>
      !(e.ServerInfo? && e.port !in UsedPorts(m.instances) && !OnLattice(m.config.basePort, e.port))
  {
    match e {
      case RequestTransfer(_, _, _, _, _) => StartKeepsPorts(m, e);
      case PrepZone(_) => StartKeepsPorts(m, e);
      case CreatePrivateZone(_, _, _) => StartKeepsPorts(m, e);
      case ServerInfo(_, _, _, _) => TrackKeepsPorts(m, e);
      case Frame =>
        TickFromKeepsPorts(m, 0, |m.instances|);
        RemoveDeadKeepsPorts(TickFrom(m, 0, |m.instances|), 0, |m.instances|);
      case Disconnect(from) =>
        if FindByAddr(m.instances, from) < |m.instances| {
          RemoveKeepsPorts(m, FindByAddr(m.instances, from));
        }
      case _ => RestKeepsPorts(m, e);
    }
  }

  lemma StartKeepsPorts(m: Master, e: Event)
    requires PortsKept(m) && (e.RequestTransfer? || e.PrepZone? || e.CreatePrivateZone?)
    ensures PortsKept(Step(m, e))
  {
    match e {
      case RequestTransfer(id, mythranShift, zoneId, cloneId, from) =>
        RouteKeepsPorts(m, zoneId % TWO_16, cloneId, Request(id, mythranShift, from));
      case PrepZone(zoneId) =>
        var map16 := zoneId % TWO_16;
        CreateKeepsPorts(m, map16, 0, SoftCap(m.config, map16), HardCap(m.config, map16), false, "");
      case CreatePrivateZone(zoneId, cloneId, password) =>
        CreateKeepsPorts(m, zoneId % TWO_16, cloneId, 999, 999, true, UpTo(password, '\0'));
    }
  }

  lemma RestKeepsPorts(m: Master, e: Event)
    requires PortsKept(m)
    requires e.WorldReady? || e.AffirmResponse? || e.PlayerAdded? || e.PlayerRemoved? || e.ShutdownResponse?
    ensures PortsKept(Step(m, e))
  {
    assert UsedPorts(Step(m, e).instances) == UsedPorts(m.instances);
  }

  lemma TrackKeepsPorts(m: Master, e: Event)
    requires PortsKept(m) && e.ServerInfo?
    ensures PortsKept(Step(m, e)) <==> e.port in UsedPorts(m.instances) || OnLattice(m.config.basePort, e.port)
  {
    var ports := UsedPorts(m.instances);
    var ports' := UsedPorts(Step(m, e).instances);
    if e.port in ports {
      assert ports' == ports;
    } else {
      assert ports' == ports + [e.port];
      assert ports'[|ports|] == e.port;
    }
  }

  predicate AllBlocksDisjoint(insts: seq<Inst>) {
    forall i, j :: 0 <= i < j < |insts| ==> BlocksDisjoint(insts[i].port, insts[j].port)
  }

  lemma PortsKeptMeansDisjoint(m: Master)
    requires PortsKept(m)
    ensures AllBlocksDisjoint(m.instances)
  {
    var ports := UsedPorts(m.instances);
    forall i, j | 0 <= i < j < |m.instances| ensures BlocksDisjoint(m.instances[i].port, m.instances[j].port) {
      LatticeBlocksAreDisjoint(m.config.basePort, ports, i, j);
      assert ports[i] == m.instances[i].port && ports[j] == m.instances[j].port;
    }
  }

  // Over every run in which worlds report in on lattice ports only, any two tracked instances occupy disjoint
  // blocks of ports.
  lemma {:induction false} BlocksStayDisjoint(m: Master, events: seq<Event>)
    requires PortsKept(m)
    requires forall e :: e in events && e.ServerInfo? ==> OnLattice(m.config.basePort, e.port)
    ensures PortsKept(Run(m, events)) && AllBlocksDisjoint(Run(m, events).instances)
    decreases |events|
  {
    if events == [] {
      PortsKeptMeansDisjoint(m);
    } else {
      assert events[0] in events;
      StepKeepsPorts(m, events[0]);
      assert forall e :: e in events[1..] ==> e in events;
      BlocksStayDisjoint(Step(m, events[0]), events[1..]);
    }
  }
}
