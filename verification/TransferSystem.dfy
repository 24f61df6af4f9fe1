/**
  Zone transfers end to end: any number of servers that ask, the master, and a network between them that may
  delay, reorder, duplicate or lose packets in both directions.

  A server is known to the master by its address alone.  When its process is replaced, the new one counts its
  requests from the start, so that an answer to a request of the old one can reach a callback of the new one.
  Exactly such answers go wrong.
 */
module TransferSystem {
  import opened Basics
  import opened Instances
  import L = TransferLedger
  import Z = ZoneInstanceManager

  // The process that runs at an address after it was replaced so many times.
  datatype Process = Process(address: Address, incarnation: nat)

  // A request packet on its way to the master, with the process that sent it and the callback it keeps for it.
  datatype Packet = Packet(from: Process, callback: nat, id: nat, mythranShift: bool, zoneId: nat, cloneId: nat)

  // Processes that were replaced stay where they were when it happened.
  datatype System = System(
    master: Master,
    processes: map<Process, Z.State>,
    replaced: map<Address, nat>,
    asked: set<Packet>
  )

  datatype Event =
    | ServerAsks(from: Address, mythranShift: bool, zoneId: nat, cloneId: nat)
    | MasterReceives(packet: Packet)
    | MasterDoes(event: Instances.Event)
    | ServerHears(to: Address, index: nat)
    | ServerRestarts(at: Address)

  // The process that runs at an address now.
  function Current(s: System, a: Address): Process {
    Process(a, if a in s.replaced then s.replaced[a] else 0)
  }

  function StateOf(s: System, q: Process): Z.State {
    if q in s.processes then s.processes[q] else Z.INITIAL
  }

  function Server(s: System, a: Address): Z.State {
    StateOf(s, Current(s, a))
  }

  function Transfer(p: Packet): Instances.Event {
    RequestTransfer(p.id, p.mythranShift, p.zoneId, p.cloneId, p.from.address)
  }

  // What a response packet tells its receiver; ports travel in 16 bits.
  function AnswerOf(m: Message): Z.Answer
    requires m.Response?
  {
    Z.Answer(m.id, m.mythranShift, m.mapId, m.instanceId, m.cloneId, m.port % TWO_16)
  }

  function TokenOf(m: Message): L.Token
    requires m.Response?
  {
    L.Token(Request(m.id, m.mythranShift, m.to), m.mapId, m.cloneId)
  }

  // Only packets that were sent can be received; apart from that any event may happen at any time.
  predicate Possible(s: System, e: Event) {
    match e
    case MasterReceives(p) => p in s.asked
    case MasterDoes(event) => !event.RequestTransfer?
    case ServerHears(to, index) => IsResponse(s, to, index)
    case _ => true
  }

  predicate IsResponse(s: System, to: Address, index: nat) {
    index < |s.master.sent| && s.master.sent[index].Response? && s.master.sent[index].to == to
  }

  // The packet that a server sends next.
  function NextPacket(s: System, e: Event): Packet
    requires e.ServerAsks?
  {
    var z := Server(s, e.from);
    Packet(Current(s, e.from), z.made, Z.Ask(z).currentRequestId, e.mythranShift, e.zoneId, e.cloneId)
  }

  function Step(s: System, e: Event): System
    requires Possible(s, e)
  {
    match e
    case ServerAsks(from, _, _, _) =>
      s.(processes := s.processes[Current(s, from) := Z.Ask(Server(s, from))], asked := s.asked + {NextPacket(s, e)})
    case MasterReceives(p) => s.(master := Instances.Step(s.master, Transfer(p)))
    case MasterDoes(event) => s.(master := Instances.Step(s.master, event))
    case ServerHears(to, index) =>
      s.(processes := s.processes[Current(s, to) := Z.Hear(Server(s, to), AnswerOf(s.master.sent[index]))])
    case ServerRestarts(a) => s.(replaced := s.replaced[a := Current(s, a).incarnation + 1])
  }

  // ----- the invariant

  predicate Matches(p: Packet, t: L.Token) {
    && p.from.address == t.request.addr && p.id == t.request.id && p.mythranShift == t.request.mythranShift
    && p.zoneId % TWO_16 == t.mapId && p.cloneId == t.cloneId
  }

  // Everything the master holds or has answered was asked for by some process at that address.
  ghost predicate MasterIsFaithful(m: Master, asked: set<Packet>) {
    forall t :: L.Total(t, m) > 0 ==> exists p :: p in asked && Matches(p, t)
  }

  ghost predicate PacketsAreKnown(s: System) {
    && (forall p :: p in s.asked ==> IsKnown(p, StateOf(s, p.from).made))
    && CallbacksDiffer(s.asked)
    && (forall p :: p in s.asked ==> p.from.incarnation <= Current(s, p.from.address).incarnation)
  }

  predicate IsKnown(p: Packet, made: nat) {
    p.callback < made && p.id == Z.NextId(p.callback)
  }

  predicate CallbacksDiffer(asked: set<Packet>) {
    forall p, q :: p in asked && q in asked && p.from == q.from && p.callback == q.callback ==> p == q
  }

  // A callback was run with the zone, clone and shift flag that this very process asked for when it was
  // registered.
  predicate IsAnswer(p: Packet, q: Process, c: Z.Call) {
    && p.from == q && p.callback == c.callback && p.id == c.answer.requestId
    && p.zoneId % TWO_16 == c.answer.zoneId && p.cloneId == c.answer.cloneId
    && p.mythranShift == c.answer.mythranShift
  }

  predicate CallIsFaithful(asked: set<Packet>, q: Process, c: Z.Call) {
    exists p :: p in asked && IsAnswer(p, q, c)
  }

  predicate CallsAreFaithful(asked: set<Packet>, q: Process, calls: seq<Z.Call>) {
    forall k :: 0 <= k < |calls| ==> CallIsFaithful(asked, q, calls[k])
  }

  // No process has made more than 2^64 requests, so that none used an id twice.
  ghost predicate FewRequests(s: System) {
    forall q :: q in s.processes ==> s.processes[q].made <= TWO_64
  }

  ghost predicate Invariant(s: System) {
    && L.WellFormed(s.master) && MasterIsFaithful(s.master, s.asked) && PacketsAreKnown(s)
    && forall q :: q in s.processes ==> Z.Valid(s.processes[q])
  }

  // ----- the master's steps

  lemma MasterStepIsFaithful(m: Master, asked: set<Packet>, e: Instances.Event, packet: Packet)
    requires L.WellFormed(m) && MasterIsFaithful(m, asked)
    requires e.RequestTransfer? ==> packet in asked && Transfer(packet) == e
    ensures L.WellFormed(Instances.Step(m, e))
    ensures MasterIsFaithful(Instances.Step(m, e), asked)
  {
    L.StepKeepsOrder(m, e);
    forall t | L.Total(t, Instances.Step(m, e)) > 0 ensures exists p :: p in asked && Matches(p, t) {
      L.StepBalance(t, m, e);
      if L.Copied(t, m, e) > 0 {
        L.CopiesAreOutstanding(t, m, 0, |m.instances|);
      }
      if L.Total(t, m) == 0 {
        assert L.Accepted(t, e) > 0;
        assert Matches(packet, t);
      }
    }
  }

  lemma MoreAskedMaster(m: Master, asked: set<Packet>, more: set<Packet>)
    requires MasterIsFaithful(m, asked) && asked <= more
    ensures MasterIsFaithful(m, more)
  {
    forall t | L.Total(t, m) > 0 ensures exists p :: p in more && Matches(p, t) {
      var p :| p in asked && Matches(p, t);
      assert p in more;
    }
  }

  lemma {:induction false} SentIsAnswered(t: L.Token, sent: seq<Message>, index: nat)
    requires index < |sent| && L.Answers(t, sent[index]) > 0
    ensures L.Answered(t, sent) > 0
  {
    if index > 0 {
      SentIsAnswered(t, sent[1..], index - 1);
    }
  }

  lemma SentWasAsked(s: System, index: nat) returns (p: Packet)
    requires MasterIsFaithful(s.master, s.asked)
    requires index < |s.master.sent| && s.master.sent[index].Response?
    ensures p in s.asked && Matches(p, TokenOf(s.master.sent[index]))
  {
    var t := TokenOf(s.master.sent[index]);
    SentIsAnswered(t, s.master.sent, index);
    assert L.Total(t, s.master) > 0;
    p :| p in s.asked && Matches(p, t);
  }

  // ----- the servers' steps

  lemma PacketHasOwnId(z: Z.State)
    requires Z.Valid(z)
    ensures Z.Ask(z).currentRequestId == Z.NextId(z.made)
  {
    assert Z.NextId(z.made % TWO_64) == Z.NextId(z.made);
  }

  lemma LaterIsKnown(p: Packet, made: nat, made': nat)
    requires IsKnown(p, made) && made <= made'
    ensures IsKnown(p, made')
  {
  }

  lemma NewCallbackDiffers(asked: set<Packet>, packet: Packet, made: nat)
    requires CallbacksDiffer(asked) && packet.callback == made
    requires forall p :: p in asked && p.from == packet.from ==> p.callback < made
    ensures CallbacksDiffer(asked + {packet})
  {
  }

  lemma MoreRequestsMade(s: System, e: Event)
    requires e.ServerAsks?
    ensures StateOf(Step(s, e), Current(s, e.from)).made == Server(s, e.from).made + 1
    ensures forall q :: StateOf(s, q).made <= StateOf(Step(s, e), q).made
  {
  }

  lemma AskKeepsPacketsKnown(s: System, e: Event)
    requires e.ServerAsks? && PacketsAreKnown(s) && Z.Valid(Server(s, e.from))
    ensures PacketsAreKnown(Step(s, e))
  {
    NewIsKnown(s, e);
    AskKeepsCallbacksDifferent(s, e);
    forall p | p in s.asked ensures IsKnown(p, StateOf(Step(s, e), p.from).made) {
      StaysKnown(s, e, p);
    }
    OneMoreKnown(s, Step(s, e), NextPacket(s, e));
  }

  lemma OneMoreKnown(s: System, s': System, packet: Packet)
    requires PacketsAreKnown(s) && s'.asked == s.asked + {packet} && s'.replaced == s.replaced
    requires CallbacksDiffer(s'.asked) && packet.from == Current(s, packet.from.address)
    requires IsKnown(packet, StateOf(s', packet.from).made)
    requires forall p :: p in s.asked ==> IsKnown(p, StateOf(s', p.from).made)
    ensures PacketsAreKnown(s')
  {
    forall p | p in s'.asked ensures p.from.incarnation <= Current(s', p.from.address).incarnation {
      assert Current(s', p.from.address) == Current(s, p.from.address);
    }
  }

  lemma AskKeepsCallbacksDifferent(s: System, e: Event)
    requires e.ServerAsks? && PacketsAreKnown(s)
    ensures CallbacksDiffer(Step(s, e).asked)
  {
    var packet := NextPacket(s, e);
    forall p | p in s.asked && p.from == packet.from ensures p.callback < packet.callback {
      assert IsKnown(p, StateOf(s, p.from).made);
    }
    NewCallbackDiffers(s.asked, packet, packet.callback);
  }

  lemma NewIsKnown(s: System, e: Event)
    requires e.ServerAsks? && Z.Valid(Server(s, e.from))
    ensures IsKnown(NextPacket(s, e), StateOf(Step(s, e), NextPacket(s, e).from).made)
  {
    PacketHasOwnId(Server(s, e.from));
    MoreRequestsMade(s, e);
  }

  lemma StaysKnown(s: System, e: Event, p: Packet)
    requires e.ServerAsks? && PacketsAreKnown(s) && p in s.asked
    ensures IsKnown(p, StateOf(Step(s, e), p.from).made)
  {
    MoreRequestsMade(s, e);
    LaterIsKnown(p, StateOf(s, p.from).made, StateOf(Step(s, e), p.from).made);
  }

  lemma AskKeepsInvariant(s: System, e: Event)
    requires e.ServerAsks? && Invariant(s)
    ensures Invariant(Step(s, e))
  {
    MoreAskedMaster(s.master, s.asked, Step(s, e).asked);
    Z.AskKeepsValid(Server(s, e.from));
    AskKeepsPacketsKnown(s, e);
  }

  lemma SamePacketsKnown(s: System, s': System)
    requires PacketsAreKnown(s) && s'.asked == s.asked
    requires forall q :: StateOf(s', q).made == StateOf(s, q).made
    requires forall a :: Current(s, a).incarnation <= Current(s', a).incarnation
    ensures PacketsAreKnown(s')
  {
    forall p | p in s'.asked
      ensures IsKnown(p, StateOf(s', p.from).made)
      ensures p.from.incarnation <= Current(s', p.from.address).incarnation
    {
      assert Current(s, p.from.address).incarnation <= Current(s', p.from.address).incarnation;
    }
  }

  lemma MasterKeepsInvariant(s: System, e: Event, event: Instances.Event, packet: Packet)
    requires Possible(s, e) && Invariant(s) && Step(s, e) == s.(master := Instances.Step(s.master, event))
    requires event.RequestTransfer? ==> packet in s.asked && Transfer(packet) == event
    ensures Invariant(Step(s, e))
  {
    MasterStepIsFaithful(s.master, s.asked, event, packet);
    SamePacketsKnown(s, Step(s, e));
  }

  lemma HearKeepsInvariant(s: System, e: Event)
    requires e.ServerHears? && Possible(s, e) && Invariant(s)
    ensures Invariant(Step(s, e))
  {
    Z.HearKeepsValid(Server(s, e.to), AnswerOf(s.master.sent[e.index]));
    HearingMakesNoRequest(s, e);
    SamePacketsKnown(s, Step(s, e));
  }

  lemma HearingMakesNoRequest(s: System, e: Event)
    requires e.ServerHears? && Possible(s, e)
    ensures forall q :: StateOf(Step(s, e), q).made == StateOf(s, q).made
    ensures forall a :: Current(Step(s, e), a) == Current(s, a)
  {
  }

  lemma StepKeepsInvariant(s: System, e: Event)
    requires Possible(s, e) && Invariant(s)
    ensures Invariant(Step(s, e))
  {
    match e {
      case ServerAsks(_, _, _, _) => AskKeepsInvariant(s, e);
      case MasterReceives(p) => MasterKeepsInvariant(s, e, Transfer(p), p);
      case MasterDoes(event) => MasterKeepsInvariant(s, e, event, Packet(Process(0, 0), 0, 0, false, 0, 0));
      case ServerHears(_, _) => HearKeepsInvariant(s, e);
      case ServerRestarts(_) => SamePacketsKnown(s, Step(s, e));
    }
  }

  // ----- one delivery

  predicate IsOutstanding(z: Z.State, id: nat) {
    Z.FindRequest(z.requests, id) < |z.requests|
  }

  // An answer to nothing but requests of processes that have been replaced, under an id that the process that
  // runs now is waiting for.
  predicate IsLeftover(s: System, to: Address, index: nat)
    requires IsResponse(s, to, index)
  {
    var m := s.master.sent[index];
    && IsOutstanding(Server(s, to), m.id)
    && forall p :: p in s.asked && Matches(p, TokenOf(m)) ==> p.from.incarnation < Current(s, to).incarnation
  }

  // The callback that a response reaches asked for what the response answers, unless it is a leftover.
  lemma HeardIsAsked(s: System, to: Address, index: nat)
    requires Invariant(s) && FewRequests(s) && IsResponse(s, to, index)
    requires IsOutstanding(Server(s, to), s.master.sent[index].id)
    ensures var z, a := Server(s, to), AnswerOf(s.master.sent[index]);
      CallIsFaithful(s.asked, Current(s, to), Z.Call(z.requests[Z.FindRequest(z.requests, a.requestId)].callback, a))
      <==> !IsLeftover(s, to, index)
  {
    var m, q, z := s.master.sent[index], Current(s, to), Server(s, to);
    var c := Z.Call(z.requests[Z.FindRequest(z.requests, m.id)].callback, AnswerOf(m));
    assert q in s.processes;
    if IsLeftover(s, to, index) {
      forall p | p in s.asked ensures !IsAnswer(p, q, c) {
        assert IsAnswer(p, q, c) ==> Matches(p, TokenOf(m));
      }
    } else {
      var p :| p in s.asked && Matches(p, TokenOf(m)) && p.from.incarnation >= q.incarnation;
      assert p.from == q;
      assert c.callback < z.made && p.callback < z.made;
      Z.SmallIdsDetermineCallback(p.callback, c.callback);
      assert IsAnswer(p, q, c);
    }
  }

  // A leftover does answer somebody, who is gone.
  lemma LeftoverWasAskedBefore(s: System, to: Address, index: nat) returns (p: Packet)
    requires Invariant(s) && IsResponse(s, to, index) && IsLeftover(s, to, index)
    ensures p in s.asked && Matches(p, TokenOf(s.master.sent[index]))
    ensures p.from.address == to && p.from.incarnation < Current(s, to).incarnation
  {
    p := SentWasAsked(s, index);
  }

  // What a delivery, or any other step, does to the calls of each process.
  predicate DeliversLeftover(s: System, e: Event, q: Process)
    requires Possible(s, e)
  {
    e.ServerHears? && Current(s, e.to) == q && IsLeftover(s, e.to, e.index)
  }

  lemma NewPacketAnswersNoOldCall(asked: set<Packet>, packet: Packet, q: Process, z: Z.State)
    requires Z.Valid(z) && (packet.from == q ==> packet.callback == z.made)
    ensures CallsAreFaithful(asked + {packet}, q, z.calls) <==> CallsAreFaithful(asked, q, z.calls)
  {
    forall k | 0 <= k < |z.calls|
      ensures CallIsFaithful(asked + {packet}, q, z.calls[k]) <==> CallIsFaithful(asked, q, z.calls[k])
    {
      if CallIsFaithful(asked, q, z.calls[k]) {
        var p :| p in asked && IsAnswer(p, q, z.calls[k]);
        assert p in asked + {packet};
      }
    }
  }

  lemma OneMoreCall(asked: set<Packet>, q: Process, calls: seq<Z.Call>, c: Z.Call)
    ensures CallsAreFaithful(asked, q, calls + [c])
       <==> CallsAreFaithful(asked, q, calls) && CallIsFaithful(asked, q, c)
  {
    var more := calls + [c];
    assert more[|calls|] == c;
    assert forall k :: 0 <= k < |calls| ==> more[k] == calls[k];
  }

  lemma StepKeepsCallsFaithful(s: System, e: Event, q: Process)
    requires Possible(s, e) && Invariant(s) && FewRequests(s)
    ensures CallsAreFaithful(Step(s, e).asked, q, StateOf(Step(s, e), q).calls)
       <==> CallsAreFaithful(s.asked, q, StateOf(s, q).calls) && !DeliversLeftover(s, e, q)
  {
    match e {
      case ServerAsks(from, _, _, _) => NewPacketAnswersNoOldCall(s.asked, NextPacket(s, e), q, StateOf(s, q));
      case ServerHears(to, index) =>
        var z, a := Server(s, to), AnswerOf(s.master.sent[index]);
        if Current(s, to) == q && IsOutstanding(z, a.requestId) {
          HeardIsAsked(s, to, index);
          OneMoreCall(s.asked, q, z.calls, Z.Call(z.requests[Z.FindRequest(z.requests, a.requestId)].callback, a));
        }
      case _ =>
    }
  }

  // ----- runs

  ghost predicate IsRun(states: seq<System>, events: seq<Event>) {
    && |states| == |events| + 1
    && forall k :: 0 <= k < |events| ==> Possible(states[k], events[k]) && states[k + 1] == Step(states[k], events[k])
  }

  // A master that has just started, and no server that has asked for anything.
  predicate Initial(s: System) {
    s.master.instances == [] && s.master.sent == [] && s.processes == map[] && s.replaced == map[] && s.asked == {}
  }

  lemma InitialInvariant(s: System)
    requires Initial(s)
    ensures Invariant(s)
  {
  }

  lemma {:induction false} FewRequestsEarlier(states: seq<System>, events: seq<Event>, k: nat)
    requires IsRun(states, events) && k <= |events| && FewRequests(states[|events|])
    ensures FewRequests(states[k])
    decreases |events| - k
  {
    if k < |events| {
      FewRequestsEarlier(states, events, k + 1);
      MadeGrows(states[k], events[k]);
    }
  }

  lemma MadeGrows(s: System, e: Event)
    requires Possible(s, e)
    ensures forall q :: q in s.processes ==>
      q in Step(s, e).processes && s.processes[q].made <= Step(s, e).processes[q].made
  {
  }

  lemma {:induction false} InvariantHolds(states: seq<System>, events: seq<Event>, k: nat)
    requires IsRun(states, events) && k <= |events| && Initial(states[0])
    ensures Invariant(states[k])
  {
    if k == 0 {
      InitialInvariant(states[0]);
    } else {
      InvariantHolds(states, events, k - 1);
      StepKeepsInvariant(states[k - 1], events[k - 1]);
    }
  }

  // No delivery before the n-th event was a leftover for this process.
  ghost predicate NothingLeftOver(states: seq<System>, events: seq<Event>, n: nat, q: Process)
    requires IsRun(states, events) && n <= |events|
  {
    forall k :: 0 <= k < n ==> !DeliversLeftover(states[k], events[k], q)
  }

  // In every reachable state, all callbacks that a process ran were run with a world for the zone and clone that
  // this process asked for when it registered them, if and only if no leftover was delivered to it.
  lemma {:induction false} TransfersAreFaithful(states: seq<System>, events: seq<Event>, n: nat, q: Process)
    requires IsRun(states, events) && n <= |events| && Initial(states[0]) && FewRequests(states[|events|])
    ensures CallsAreFaithful(states[n].asked, q, StateOf(states[n], q).calls)
       <==> NothingLeftOver(states, events, n, q)
  {
    if n > 0 {
      TransfersAreFaithful(states, events, n - 1, q);
      InvariantHolds(states, events, n - 1);
      FewRequestsEarlier(states, events, n - 1);
      StepKeepsCallsFaithful(states[n - 1], events[n - 1], q);
    }
  }

  // Whatever is left over, each callback is run once at most.
  lemma CallbacksRunOnce(states: seq<System>, events: seq<Event>, n: nat, q: Process)
    requires IsRun(states, events) && n <= |events| && Initial(states[0])
    ensures Z.CalledOnce(StateOf(states[n], q).calls)
  {
    InvariantHolds(states, events, n);
  }

  // The first process at an address is never handed a leftover, so all its answers are its own.
  lemma FirstProcessIsFaithful(states: seq<System>, events: seq<Event>, n: nat, a: Address)
    requires IsRun(states, events) && n <= |events| && Initial(states[0]) && FewRequests(states[|events|])
    ensures CallsAreFaithful(states[n].asked, Process(a, 0), StateOf(states[n], Process(a, 0)).calls)
  {
    forall k | 0 <= k < n ensures !DeliversLeftover(states[k], events[k], Process(a, 0)) {
      InvariantHolds(states, events, k);
      if DeliversLeftover(states[k], events[k], Process(a, 0)) {
        var p := LeftoverWasAskedBefore(states[k], events[k].to, events[k].index);
      }
    }
    TransfersAreFaithful(states, events, n, Process(a, 0));
  }

  // ----- a leftover

  const ASKING: Z.State := Z.State([Z.ZoneTransferRequest(1, 0)], 1, 1, [])
  const FIRST: Packet := Packet(Process(7, 0), 0, 1, false, 1200, 0)
  const SECOND: Packet := Packet(Process(7, 1), 0, 1, false, 1300, 0)
  const ANSWER: Z.Answer := Z.Answer(1, false, 1200, 0, 0, 3000)

  const START: System := System(L.START, map[], map[], {})
  const FIRST_ASKED: System := System(L.START, map[FIRST.from := ASKING], map[], {FIRST})
  const ACCEPTED: System := FIRST_ASKED.(master := L.ASKED)
  const RESTARTED: System := ACCEPTED.(replaced := map[7 := 1])
  const SECOND_ASKED: System :=
    RESTARTED.(processes := map[FIRST.from := ASKING, SECOND.from := ASKING], asked := {FIRST, SECOND})

  function Answered(): System {
    SECOND_ASKED.(master := Instances.Step(L.ASKED, WorldReady(1200, 0)))
  }

  function Misled(): System {
    Answered().(processes := map[FIRST.from := ASKING, SECOND.from := Z.State([], 1, 1, [Z.Call(0, ANSWER)])])
  }

  lemma FirstAsks()
    ensures Step(START, ServerAsks(7, false, 1200, 0)) == FIRST_ASKED
    ensures Possible(FIRST_ASKED, MasterReceives(FIRST)) && Step(FIRST_ASKED, MasterReceives(FIRST)) == ACCEPTED
  {
    FirstRequest();
    L.AskingStartsWorld();
  }

  lemma ServerIsReplaced()
    ensures Step(ACCEPTED, ServerRestarts(7)) == RESTARTED && Current(RESTARTED, 7) == SECOND.from
    ensures Server(RESTARTED, 7) == Z.INITIAL
  {
  }

  lemma SecondAsks()
    ensures Step(RESTARTED, ServerAsks(7, false, 1300, 0)) == SECOND_ASKED
  {
    ServerIsReplaced();
    FirstRequest();
    assert NextPacket(RESTARTED, ServerAsks(7, false, 1300, 0)) == SECOND;
    assert SECOND_ASKED.processes == RESTARTED.processes[SECOND.from := ASKING];
  }

  lemma SecondHears()
    ensures Possible(SECOND_ASKED, MasterDoes(WorldReady(1200, 0)))
    ensures Step(SECOND_ASKED, MasterDoes(WorldReady(1200, 0))) == Answered()
    ensures Possible(Answered(), ServerHears(7, 1)) && Step(Answered(), ServerHears(7, 1)) == Misled()
  {
    FirstAnswer();
    ReadyAnswers();
    assert Current(Answered(), 7) == SECOND.from;
    assert AnswerOf(Answered().master.sent[1]) == ANSWER;
    assert Misled().processes == Answered().processes[SECOND.from := Z.State([], 1, 1, [Z.Call(0, ANSWER)])];
  }

  ghost predicate Reaches(states: seq<System>, events: seq<Event>, s: System) {
    IsRun(states, events) && states[0] == START && states[|events|] == s
  }

  lemma OneMoreEvent(states: seq<System>, events: seq<Event>, s: System, e: Event, next: System)
    requires Reaches(states, events, s) && Possible(s, e) && next == Step(s, e)
    ensures Reaches(states + [next], events + [e], next)
  {
    var longer, all := states + [next], events + [e];
    forall k | 0 <= k < |all| ensures Possible(longer[k], all[k]) && longer[k + 1] == Step(longer[k], all[k]) {
      if k < |events| {
        assert longer[k] == states[k] && longer[k + 1] == states[k + 1] && all[k] == events[k];
      }
    }
  }

  lemma MisledIsUnfaithful()
    ensures FewRequests(Misled()) && Misled().asked == {FIRST, SECOND}
    ensures StateOf(Misled(), SECOND.from).calls == [Z.Call(0, ANSWER)]
    ensures !CallsAreFaithful({FIRST, SECOND}, SECOND.from, [Z.Call(0, ANSWER)])
  {
    assert !IsAnswer(FIRST, SECOND.from, Z.Call(0, ANSWER)) && !IsAnswer(SECOND, SECOND.from, Z.Call(0, ANSWER));
    assert !CallIsFaithful({FIRST, SECOND}, SECOND.from, [Z.Call(0, ANSWER)][0]);
  }

  // A server asks for one zone and is replaced; the new process asks for another zone and is sent to the first.
  lemma RestartMisdirectsAnswer() returns (states: seq<System>, events: seq<Event>)
    ensures Reaches(states, events, Misled()) && Initial(START) && FewRequests(Misled())
    ensures Misled().asked == {FIRST, SECOND} && StateOf(Misled(), SECOND.from).calls == [Z.Call(0, ANSWER)]
    ensures !CallsAreFaithful({FIRST, SECOND}, SECOND.from, [Z.Call(0, ANSWER)])
  {
    states, events := FirstSteps();
    states, events := MiddleSteps(states, events);
    states, events := LastSteps(states, events);
    MisledIsUnfaithful();
  }

  lemma FirstSteps() returns (states: seq<System>, events: seq<Event>)
    ensures Reaches(states, events, ACCEPTED)
  {
    FirstAsks();
    var e, f := ServerAsks(7, false, 1200, 0), MasterReceives(FIRST);
    OneMoreEvent([START], [], START, e, FIRST_ASKED);
    OneMoreEvent([START] + [FIRST_ASKED], [] + [e], FIRST_ASKED, f, ACCEPTED);
    states, events := [START] + [FIRST_ASKED] + [ACCEPTED], [] + [e] + [f];
  }

  lemma MiddleSteps(states: seq<System>, events: seq<Event>) returns (more: seq<System>, later: seq<Event>)
    requires Reaches(states, events, ACCEPTED)
    ensures Reaches(more, later, SECOND_ASKED)
  {
    ServerIsReplaced();
    SecondAsks();
    var e, f := ServerRestarts(7), ServerAsks(7, false, 1300, 0);
    OneMoreEvent(states, events, ACCEPTED, e, RESTARTED);
    OneMoreEvent(states + [RESTARTED], events + [e], RESTARTED, f, SECOND_ASKED);
    more, later := states + [RESTARTED] + [SECOND_ASKED], events + [e] + [f];
  }

  lemma LastSteps(states: seq<System>, events: seq<Event>) returns (more: seq<System>, later: seq<Event>)
    requires Reaches(states, events, SECOND_ASKED)
    ensures Reaches(more, later, Misled())
  {
    SecondHears();
    var e, f := MasterDoes(WorldReady(1200, 0)), ServerHears(7, 1);
    OneMoreEvent(states, events, SECOND_ASKED, e, Answered());
    OneMoreEvent(states + [Answered()], events + [e], Answered(), f, Misled());
    more, later := states + [Answered()] + [Misled()], events + [e] + [f];
  }

  lemma FirstRequest()
    ensures Z.Ask(Z.INITIAL) == ASKING
  {
    assert [] + [Z.ZoneTransferRequest(1, 0)] == ASKING.requests;
  }

  lemma FirstAnswer()
    ensures Z.Hear(ASKING, ANSWER) == Z.State([], 1, 1, [Z.Call(0, ANSWER)])
  {
    assert Z.FindRequest(ASKING.requests, 1) == 0;
    assert ASKING.requests[..0] + ASKING.requests[1..] == [];
  }

  lemma ReadyAnswers()
    ensures var ready := Instances.Step(L.ASKED, WorldReady(1200, 0));
      |ready.sent| == 2 && ready.sent[1] == Response(7, 1, false, 1200, 0, 0, 3000)
  {
    assert FindById(L.ASKED.instances, 1200, 0) == 0;
    assert Responses(L.UNREADY, L.UNREADY.requests) == [Response(7, 1, false, 1200, 0, 0, 3000)];
  }
}
