/**
  The side of a zone transfer that asks: a server's outstanding requests and their callbacks
  (dNet/ZoneInstanceManager.cpp).
 */
module ZoneInstanceManager {
  import opened Basics

  // A callback is known by the number of requests that were made before it.
  datatype ZoneTransferRequest = ZoneTransferRequest(requestId: nat, callback: nat)

  // What a response carries.
  datatype Answer = Answer(requestId: nat, mythranShift: bool, zoneId: nat, instanceId: nat, cloneId: nat, port: nat)

  datatype Call = Call(callback: nat, answer: Answer)

  // The outstanding requests, the request counter, how many requests were made, and the callbacks run.
  datatype State = State(requests: seq<ZoneTransferRequest>, currentRequestId: nat, made: nat, calls: seq<Call>)

  const INITIAL: State := State([], 0, 0, [])

  function NextId(id: nat): nat {
    (id + 1) % TWO_64
  }

  function Ask(s: State): State {
    var id := NextId(s.currentRequestId);
    State(s.requests + [ZoneTransferRequest(id, s.made)], id, s.made + 1, s.calls)
  }

  function FindRequest(requests: seq<ZoneTransferRequest>, id: nat): (k: nat)
    ensures k <= |requests|
    ensures k < |requests| ==> requests[k].requestId == id
    ensures forall j :: 0 <= j < k ==> requests[j].requestId != id
  {
    if requests == [] || requests[0].requestId == id then 0 else FindRequest(requests[1..], id) + 1
  }

  function Hear(s: State, a: Answer): State {
    var k := FindRequest(s.requests, a.requestId);
    if k == |s.requests| then s
    else s.(requests := s.requests[..k] + s.requests[k + 1..], calls := s.calls + [Call(s.requests[k].callback, a)])
  }

  class ZoneInstanceManager {
    var requests: seq<ZoneTransferRequest>
    var currentRequestId: nat
    ghost var made: nat
    ghost var calls: seq<Call>

    constructor ()
      ensures Value() == INITIAL
    {
      requests, currentRequestId, made, calls := [], 0, 0, [];
    }

    ghost function Value(): State
      reads this
    {
      State(requests, currentRequestId, made, calls)
    }

    // Returns the id that goes into the packet for the master.
    method RequestZoneTransfer(callback: nat) returns (requestId: nat)
      requires callback == made
      modifies this
      ensures Value() == Ask(old(Value())) && requestId == currentRequestId
    {
      currentRequestId := (currentRequestId + 1) % TWO_64;
      requests := requests + [ZoneTransferRequest(currentRequestId, callback)];
      requestId := currentRequestId;
      made := made + 1;
    }

    // Returns the callback that is run, if any.
    method HandleRequestZoneTransferResponse(a: Answer) returns (called: bool, callback: nat)
      modifies this
      ensures Value() == Hear(old(Value()), a)
      ensures called <==> FindRequest(old(requests), a.requestId) < |old(requests)|
      ensures called ==> calls == old(calls) + [Call(callback, a)]
    {
      called, callback := false, 0;
      for i := 0 to |requests|
        invariant Value() == old(Value())
        invariant forall j :: 0 <= j < i ==> requests[j].requestId != a.requestId
      {
        if requests[i].requestId == a.requestId {
          assert FindRequest(requests, a.requestId) == i;
          called, callback := true, requests[i].callback;
          calls := calls + [Call(callback, a)];
          requests := requests[..i] + requests[i + 1..];
          return;
        }
      }
    }
  }

  // ----- every callback at most once

  predicate OwnIds(requests: seq<ZoneTransferRequest>, made: nat) {
    forall k :: 0 <= k < |requests| ==>
      requests[k].callback < made && requests[k].requestId == NextId(requests[k].callback)
  }

  predicate InOrder(requests: seq<ZoneTransferRequest>) {
    forall j, k :: 0 <= j < k < |requests| ==> requests[j].callback < requests[k].callback
  }

  predicate CalledWithOwnId(calls: seq<Call>, made: nat) {
    forall k :: 0 <= k < |calls| ==>
      calls[k].callback < made && calls[k].answer.requestId == NextId(calls[k].callback)
  }

  predicate CalledOnce(calls: seq<Call>) {
    forall j, k :: 0 <= j < k < |calls| ==> calls[j].callback != calls[k].callback
  }

  predicate CalledNoLongerWait(calls: seq<Call>, requests: seq<ZoneTransferRequest>) {
    forall j, k :: 0 <= j < |calls| && 0 <= k < |requests| ==> calls[j].callback != requests[k].callback
  }

  predicate Valid(s: State) {
    && s.currentRequestId == s.made % TWO_64
    && OwnIds(s.requests, s.made) && InOrder(s.requests)
    && CalledWithOwnId(s.calls, s.made) && CalledOnce(s.calls)
    && CalledNoLongerWait(s.calls, s.requests)
  }

  lemma AskKeepsValid(s: State)
    requires Valid(s)
    ensures Valid(Ask(s))
  {
    assert NextId(s.made % TWO_64) == NextId(s.made);
  }

  lemma ErasureKeepsOwnIds(requests: seq<ZoneTransferRequest>, k: nat, made: nat)
    requires OwnIds(requests, made) && k < |requests|
    ensures OwnIds(requests[..k] + requests[k + 1..], made)
  {
  }

  lemma ErasureKeepsOrder(requests: seq<ZoneTransferRequest>, k: nat)
    requires InOrder(requests) && k < |requests|
    ensures var rest := requests[..k] + requests[k + 1..];
      InOrder(rest) && forall j :: 0 <= j < |rest| ==> rest[j].callback != requests[k].callback
  {
  }

  lemma CallKeepsApart(calls: seq<Call>, requests: seq<ZoneTransferRequest>, k: nat, call: Call)
    requires CalledOnce(calls) && CalledNoLongerWait(calls, requests) && InOrder(requests)
    requires k < |requests| && call.callback == requests[k].callback
    ensures CalledOnce(calls + [call]) && CalledNoLongerWait(calls + [call], requests[..k] + requests[k + 1..])
  {
    ErasureKeepsOrder(requests, k);
    var rest := requests[..k] + requests[k + 1..];
    assert forall j :: 0 <= j < |rest| ==> rest[j] == requests[if j < k then j else j + 1];
  }

  lemma CallKeepsOwnId(calls: seq<Call>, made: nat, call: Call)
    requires CalledWithOwnId(calls, made)
    requires call.callback < made && call.answer.requestId == NextId(call.callback)
    ensures CalledWithOwnId(calls + [call], made)
  {
  }

  lemma HearKeepsValid(s: State, a: Answer)
    requires Valid(s)
    ensures Valid(Hear(s, a))
  {
    var k := FindRequest(s.requests, a.requestId);
    if k < |s.requests| {
      var call := Call(s.requests[k].callback, a);
      ErasureKeepsOwnIds(s.requests, k, s.made);
      ErasureKeepsOrder(s.requests, k);
      CallKeepsApart(s.calls, s.requests, k, call);
      CallKeepsOwnId(s.calls, s.made, call);
    }
  }

  datatype Event = Asks | Hears(answer: Answer)

  function Step(s: State, e: Event): State {
    match e
    case Asks => Ask(s)
    case Hears(a) => Hear(s, a)
  }

  function Run(s: State, events: seq<Event>): State
    decreases |events|
  {
    if events == [] then s else Run(Step(s, events[0]), events[1..])
  }

  // Whatever responses arrive, in whatever order and however often, every callback runs at most once, never
  // while it is still outstanding, and only for a response with its own id.
  lemma {:induction false} CallbacksRunAtMostOnce(s: State, events: seq<Event>)
    requires Valid(s)
    ensures Valid(Run(s, events))
    decreases |events|
  {
    if events != [] {
      AskKeepsValid(s);
      match events[0] {
        case Asks =>
        case Hears(a) => HearKeepsValid(s, a);
      }
      CallbacksRunAtMostOnce(Step(s, events[0]), events[1..]);
    }
  }

  // Ids wrap around after 2^64 requests; until the oldest outstanding request is that old, ids are unique.
  lemma OutstandingIdsAreDistinct(s: State, j: nat, k: nat)
    requires Valid(s) && j < k < |s.requests|
    ensures s.requests[j].requestId == s.requests[k].requestId
       <==> (s.requests[k].callback - s.requests[j].callback) % TWO_64 == 0
    ensures s.made - s.requests[j].callback <= TWO_64 ==> s.requests[j].requestId != s.requests[k].requestId
  {
    var a, b := s.requests[j].callback + 1, s.requests[k].callback + 1;
    EqualModulo(a, b);
  }

  lemma EqualModulo(a: nat, b: nat)
    requires a <= b
    ensures a % TWO_64 == b % TWO_64 <==> (b - a) % TWO_64 == 0
  {
    var n := TWO_64;
    assert a == a / n * n + a % n && b == b / n * n + b % n;
    if a % n == b % n {
      assert b - a == (b / n - a / n) * n;
    }
    if (b - a) % n == 0 {
      assert b - a == (b - a) / n * n;
      assert b == ((b - a) / n + a / n) * n + a % n;
    }
  }

  lemma SmallIdsDetermineCallback(a: nat, b: nat)
    requires a < TWO_64 && b < TWO_64 && NextId(a) == NextId(b)
    ensures a == b
  {
  }
}
