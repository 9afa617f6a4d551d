/** Routing a response back to the calls that asked (src/jmap/core/response.py). */
module Responses {
  import opened Wrappers
  import opened Invocations
  import Json

  datatype Invocation = Invocation(name: string, arguments: Json.Members, callId: string)

  datatype MethodError = MethodError(errorType: Json.Value, callId: string, arguments: Json.Members)

  const ERROR_RESPONSE := "error"

  // ---------------------------------------------------------------------------
  // Handles (src/jmap/core/invocation.py)
  // ---------------------------------------------------------------------------

  datatype HandleState = HandleState(
    resolved: bool,
    result: Option<Json.Value>,
    error: Option<MethodError>,
    extra: seq<Invocation>)
  {
    function Fulfilled(result: Json.Value, extra: seq<Invocation>): HandleState {
      this.(result := Some(result), extra := extra, resolved := true)
    }

    function Failed(error: MethodError): HandleState {
      this.(error := Some(error), resolved := true)
    }
  }

  const UNSENT := HandleState(false, None, None, [])

  class Handle {
    const callId: string
    const call: MethodCall
    var result: Option<Json.Value>
    var error: Option<MethodError>
    var extra: seq<Invocation>
    var resolved: bool

    constructor (callId: string, call: MethodCall)
      ensures this.callId == callId && this.call == call && State() == UNSENT
    {
      this.callId := callId;
      this.call := call;
      result, error, extra, resolved := None, None, [], false;
    }

    function State(): HandleState
      reads this
    {
      HandleState(resolved, result, error, extra)
    }

    method Fulfil(result: Json.Value, extra: seq<Invocation>)
      modifies this
      ensures State() == old(State()).Fulfilled(result, extra)
    {
      this.result := Some(result);
      this.extra := extra;
      resolved := true;
    }

    method Fail(error: MethodError)
      modifies this
      ensures State() == old(State()).Failed(error)
    {
      this.error := Some(error);
      resolved := true;
    }
  }

  function Queued(handles: seq<Handle>): seq<QueuedCall> {
    seq(|handles|, i requires 0 <= i < |handles| => QueuedCall(handles[i].callId, handles[i].call))
  }

  function States(handles: seq<Handle>): seq<HandleState>
    reads handles
  {
    seq(|handles|, i requires 0 <= i < |handles| reads handles => handles[i].State())
  }

  predicate Distinct(handles: seq<Handle>) {
    forall i, j :: 0 <= i < j < |handles| ==> handles[i] != handles[j]
  }

  // ---------------------------------------------------------------------------
  // Which invocation answers a call
  // ---------------------------------------------------------------------------

  /** The invocations under one call id, in the order they arrived. */
  function ForCall(invocations: seq<Invocation>, id: string): seq<Invocation> {
    if invocations == [] then []
    else
      var last := invocations[|invocations| - 1];
      ForCall(invocations[..|invocations| - 1], id) + (if last.callId == id then [last] else [])
  }

  lemma {:induction false} ForCallConcat(first: seq<Invocation>, rest: seq<Invocation>, id: string)
    ensures ForCall(first + rest, id) == ForCall(first, id) + ForCall(rest, id)
    decreases |rest|
  {
    if rest == [] {
      assert first + rest == first;
    } else {
      var init := rest[..|rest| - 1];
      assert (first + rest)[..|first + rest| - 1] == first + init;
      ForCallConcat(first, init, id);
    }
  }

  lemma {:induction false} ForCallAbsent(invocations: seq<Invocation>, id: string)
    requires forall k :: 0 <= k < |invocations| ==> invocations[k].callId != id
    ensures ForCall(invocations, id) == []
  {
    if invocations != [] { ForCallAbsent(invocations[..|invocations| - 1], id); }
  }

  predicate Answers(expected: string, invocation: Invocation) {
    invocation.name == expected || invocation.name == ERROR_RESPONSE
  }

  /** Where the answer is among the invocations from `from` on; 0 when none has a fitting name. */
  function PrimaryIndex(expected: string, invocations: seq<Invocation>, from: nat): (i: nat)
    requires from <= |invocations| && invocations != []
    ensures i < |invocations|
    decreases |invocations| - from
  {
    if from == |invocations| then 0
    else if Answers(expected, invocations[from]) then from
    else PrimaryIndex(expected, invocations, from + 1)
  }

  function Partition(expected: string, invocations: seq<Invocation>): (Invocation, seq<Invocation>)
    requires invocations != []
  {
    var i := PrimaryIndex(expected, invocations, 0);
    (invocations[i], invocations[..i] + invocations[i + 1..])
  }

  lemma {:induction false} PrimaryIndexFirst(expected: string, invocations: seq<Invocation>, from: nat, k: nat)
    requires from <= k < |invocations| && Answers(expected, invocations[k])
    ensures
      var i := PrimaryIndex(expected, invocations, from);
      from <= i <= k && Answers(expected, invocations[i])
    decreases |invocations| - from
  {
    if !Answers(expected, invocations[from]) { PrimaryIndexFirst(expected, invocations, from + 1, k); }
  }

  /**
   * An implicit response is never taken for the answer while the answer is there, wherever
   * it stands; and setting the answer aside loses none of the others.
   */
  lemma PartitionFindsAnswer(expected: string, invocations: seq<Invocation>, k: nat)
    requires k < |invocations| && Answers(expected, invocations[k])
    ensures Answers(expected, Partition(expected, invocations).0)
    ensures multiset(invocations) ==
            multiset{Partition(expected, invocations).0} + multiset(Partition(expected, invocations).1)
    ensures forall m :: 0 <= m < k && Answers(expected, invocations[m]) ==>
              exists j :: 0 <= j <= m && Partition(expected, invocations).0 == invocations[j]
  {
    PrimaryIndexFirst(expected, invocations, 0, k);
    var i := PrimaryIndex(expected, invocations, 0);
    assert invocations == invocations[..i] + [invocations[i]] + invocations[i + 1..];
    forall m | 0 <= m < k && Answers(expected, invocations[m])
      ensures exists j :: 0 <= j <= m && Partition(expected, invocations).0 == invocations[j]
    {
      PrimaryIndexFirst(expected, invocations, 0, m);
    }
  }

  function ToMethodError(invocation: Invocation): MethodError {
    var errorType := if "type" in invocation.arguments then invocation.arguments["type"]
                     else Json.Str("unknownError");
    MethodError(errorType, invocation.callId, invocation.arguments)
  }

  /** What a handle becomes on these invocations, which all carry its call id. */
  function Answered(id: string, call: MethodCall, state: HandleState, mine: seq<Invocation>): HandleState {
    if mine == [] then state
    else
      var (primary, extra) := Partition(call.name, mine);
      if primary.name == ERROR_RESPONSE then state.Failed(ToMethodError(primary))
      else
        match call.parse(primary.arguments)
        case None => state.Failed(MethodError(Json.Str("malformedResult"), id, map[]))
        case Some(parsed) => state.Fulfilled(parsed, extra)
  }

  function Dispatched(id: string, call: MethodCall, state: HandleState, invocations: seq<Invocation>): HandleState {
    Answered(id, call, state, ForCall(invocations, id))
  }

  method GroupByCall(invocations: seq<Invocation>) returns (groups: map<string, seq<Invocation>>)
    ensures forall id :: id in groups <==> ForCall(invocations, id) != []
    ensures forall id :: id in groups ==> groups[id] == ForCall(invocations, id)
  {
    groups := map[];
    for i := 0 to |invocations|
      invariant forall id :: id in groups <==> ForCall(invocations[..i], id) != []
      invariant forall id :: id in groups ==> groups[id] == ForCall(invocations[..i], id)
    {
      var invocation := invocations[i];
      assert invocations[..i + 1][..i] == invocations[..i];
      var before := if invocation.callId in groups then groups[invocation.callId] else [];
      groups := groups[invocation.callId := before + [invocation]];
    }
    assert invocations[..|invocations|] == invocations;
  }

  /** Resolves every handle the response answers, in place, and leaves the others as they were. */
  method Dispatch(invocations: seq<Invocation>, handles: seq<Handle>)
    requires Distinct(handles)
    modifies handles
    ensures forall i :: 0 <= i < |handles| ==>
      handles[i].State() == Dispatched(handles[i].callId, handles[i].call, old(handles[i].State()), invocations)
  {
    var groups := GroupByCall(invocations);
    for i := 0 to |handles|
      invariant forall j :: 0 <= j < i ==>
        handles[j].State() == Dispatched(handles[j].callId, handles[j].call, old(handles[j].State()), invocations)
      invariant forall j :: i <= j < |handles| ==> handles[j].State() == old(handles[j].State())
    {
      var handle := handles[i];
      if handle.callId in groups {
        var (primary, extra) := Partition(handle.call.name, groups[handle.callId]);
        if primary.name == ERROR_RESPONSE {
          handle.Fail(ToMethodError(primary));
        } else {
          match handle.call.parse(primary.arguments) {
            case None => handle.Fail(MethodError(Json.Str("malformedResult"), handle.callId, map[]));
            case Some(parsed) => handle.Fulfil(parsed, extra);
          }
        }
      }
    }
  }
}
