/** Queueing calls, sending them and absorbing the answers (src/jmap/batch.py, src/jmap/client.py). */
module Batches {
  import opened Wrappers
  import opened Sequences
  import opened Decimals
  import opened Invocations
  import opened Requests
  import opened Responses
  import opened Servers
  import opened SplitBatches
  import opened Chunking
  import Json

  datatype MethodKind = GetKind | SetKind | OtherKind

  /** The ids a call names literally; None for a back-reference, a null or no `ids` at all. */
  function LiteralIds(arguments: seq<Argument>): Option<seq<Json.Value>> {
    if arguments == [] then None
    else if arguments[0].key == "ids" then
      if arguments[0].value.Literal? && arguments[0].value.value.Array?
      then Some(arguments[0].value.value.items) else None
    else LiteralIds(arguments[1..])
  }

  function WithIds(call: MethodCall, ids: seq<Json.Value>): MethodCall {
    call.(arguments := seq(|call.arguments|, i requires 0 <= i < |call.arguments| =>
      if call.arguments[i].key == "ids" then Argument("ids", Literal(Json.Array(ids))) else call.arguments[i]))
  }

  /** How many ids a call names literally. */
  function IdCount(call: MethodCall): nat {
    match LiteralIds(call.arguments)
    case Some(ids) => |ids|
    case None => 0
  }

  lemma {:induction false} ReplacedIds(before: seq<Argument>, after: seq<Argument>, ids: seq<Json.Value>)
    requires |after| == |before| && LiteralIds(before).Some?
    requires forall i :: 0 <= i < |before| ==>
      after[i] == if before[i].key == "ids" then Argument("ids", Literal(Json.Array(ids))) else before[i]
    ensures LiteralIds(after) == Some(ids)
  {
    if before[0].key != "ids" { ReplacedIds(before[1..], after[1..], ids); }
  }

  lemma WithIdsCount(call: MethodCall, ids: seq<Json.Value>)
    requires LiteralIds(call.arguments).Some?
    ensures IdCount(WithIds(call, ids)) == |ids|
  {
    ReplacedIds(call.arguments, WithIds(call, ids).arguments, ids);
  }

  class Batch {
    var handles: seq<Handle>
    var counter: nat
    var inFlight: set<string>
    var createdIds: map<string, string>
    const maxObjectsInGet: nat
    const maxCallsInRequest: int

    /** Call k of the batch is `c<k+1>`, so no two calls share an id. */
    ghost predicate Valid()
      reads this
    {
      && counter == |handles|
      && maxObjectsInGet >= 1
      && Distinct(handles)
      && forall i :: 0 <= i < |handles| ==> handles[i].callId == Tagged('c', i + 1)
    }

    constructor (maxObjectsInGet: nat, maxCallsInRequest: int, createdIds: map<string, string>)
      requires maxObjectsInGet >= 1
      ensures Valid() && handles == [] && this.createdIds == createdIds
      ensures this.maxObjectsInGet == maxObjectsInGet && this.maxCallsInRequest == maxCallsInRequest
    {
      handles, counter, inFlight, this.createdIds := [], 0, {}, createdIds;
      this.maxObjectsInGet, this.maxCallsInRequest := maxObjectsInGet, maxCallsInRequest;
    }

    ghost function Calls(): seq<QueuedCall>
      reads this
    {
      Queued(handles)
    }

    method Enqueue(call: MethodCall) returns (handle: Handle)
      requires Valid()
      modifies this
      ensures Valid() && createdIds == old(createdIds) && inFlight == old(inFlight)
      ensures fresh(handle) && handle.call == call && handle.State() == UNSENT
      ensures handles == old(handles) + [handle]
    {
      counter := counter + 1;
      handle := new Handle(Tagged('c', counter), call);
      handles := handles + [handle];
    }

    /**
     * Queues a call that has passed its gates. A `/get` naming more ids than the server
     * takes becomes several calls, one a chunk; anything else becomes one.
     */
    method Add(kind: MethodKind, call: MethodCall) returns (added: seq<Handle>, ghost chunks: seq<seq<Json.Value>>)
      requires Valid()
      modifies this
      ensures Valid() && createdIds == old(createdIds) && inFlight == old(inFlight)
      ensures handles == old(handles) + added
      ensures forall i :: 0 <= i < |added| ==> fresh(added[i]) && added[i].State() == UNSENT
      ensures
        var ids := if kind == GetKind then LiteralIds(call.arguments) else None;
        if ids.None? || |Dedup(ids.value)| <= maxObjectsInGet then
          |added| == 1 && added[0].call == call
        else
          && |added| == |chunks| && Concat(chunks) == Dedup(ids.value)
          && (forall c :: 0 <= c < |chunks| ==> 1 <= |chunks[c]| <= maxObjectsInGet)
          && (forall c :: 0 <= c < |chunks| ==> added[c].call == WithIds(call, chunks[c]))
      // Only a list that fits once its repeats are dropped goes out over the limit.
      ensures kind == GetKind ==>
        ((exists i :: 0 <= i < |added| && IdCount(added[i].call) > maxObjectsInGet) <==>
          IdCount(call) > maxObjectsInGet && |Dedup(LiteralIds(call.arguments).value)| <= maxObjectsInGet)
    {
      added, chunks := [], [];
      var ids := if kind == GetKind then LiteralIds(call.arguments) else None;
      if ids.Some? {
        var split := SplitIfOversized(ids.value, maxObjectsInGet);
        if split.Some? {
          chunks := split.value;
          for c := 0 to |split.value|
            invariant Valid() && createdIds == old(createdIds) && inFlight == old(inFlight)
            invariant |added| == c && handles == old(handles) + added
            invariant forall i :: 0 <= i < c ==> fresh(added[i]) && added[i].State() == UNSENT
            invariant forall i :: 0 <= i < c ==> added[i].call == WithIds(call, chunks[i])
          {
            var chunk := Enqueue(WithIds(call, split.value[c]));
            added := added + [chunk];
          }
          forall i | 0 <= i < |added| ensures IdCount(added[i].call) <= maxObjectsInGet {
            WithIdsCount(call, chunks[i]);
          }
          return;
        }
      }
      var handle := Enqueue(call);
      added := [handle];
      assert added[0].call == call;
    }

    /** Routes one response to its handles; a call the request carried but nobody answered fails. */
    method Absorb(invocations: seq<Invocation>, reported: map<string, string>)
      requires Valid()
      modifies this, handles
      ensures Valid() && handles == old(handles) && inFlight == {}
      ensures createdIds == old(createdIds) + reported
      ensures forall i :: 0 <= i < |handles| ==>
        handles[i].State() == Absorbed(handles[i].callId, handles[i].call, old(handles[i].State()),
                                       old(inFlight), invocations)
    {
      Dispatch(invocations, handles);
      createdIds := createdIds + reported;
      for i := 0 to |handles|
        invariant handles == old(handles) && inFlight == old(inFlight) && counter == old(counter)
        invariant createdIds == old(createdIds) + reported
        invariant forall j :: 0 <= j < i ==>
          handles[j].State() == Absorbed(handles[j].callId, handles[j].call, old(handles[j].State()),
                                         inFlight, invocations)
        invariant forall j :: i <= j < |handles| ==>
          handles[j].State() == Dispatched(handles[j].callId, handles[j].call, old(handles[j].State()), invocations)
      {
        var handle := handles[i];
        if handle.callId in inFlight && !handle.resolved {
          handle.Fail(MethodError(Json.Str("missingResponse"), handle.callId, map[]));
        }
      }
      inFlight := {};
    }

    /** The handles still awaiting a response, in the order they were queued. */
    method Pending() returns (pending: seq<Handle>)
      requires Valid()
      ensures pending == Awaiting(handles)
    {
      pending := [];
      for i := 0 to |handles|
        invariant pending == Awaiting(handles[..i])
      {
        assert handles[..i + 1][..i] == handles[..i];
        if !handles[i].resolved { pending := pending + [handles[i]]; }
      }
      assert handles[..|handles|] == handles;
    }
  }

  function Awaiting(handles: seq<Handle>): (pending: seq<Handle>)
    reads handles
    ensures forall h | h in pending :: h in handles && !h.resolved
    ensures forall h | h in handles && !h.resolved :: h in pending
    ensures Distinct(handles) ==> Distinct(pending)
  {
    if handles == [] then []
    else
      var last := handles[|handles| - 1];
      assert handles == handles[..|handles| - 1] + [last];
      Awaiting(handles[..|handles| - 1]) + (if last.resolved then [] else [last])
  }

  lemma BatchIdsUnique(handles: seq<Handle>)
    requires forall i :: 0 <= i < |handles| ==> handles[i].callId == Tagged('c', i + 1)
    ensures UniqueIds(Queued(handles))
  {
    forall i, j | 0 <= i < j < |handles| ensures handles[i].callId != handles[j].callId {
      TaggedInjective('c', i + 1, j + 1);
    }
  }

  ghost function ProgressOf<S>(state: S, batch: Batch): Progress<S>
    reads batch, batch.handles
  {
    Progress(state, batch.createdIds, States(batch.handles))
  }

  /** Sends the calls from `lo` up to `hi` with the ids held so far, and absorbs what comes back. */
  method SendRequest<S>(
    batch: Batch, calls: seq<QueuedCall>, method_: Method<S>, always: bool, state: S, ghost lo: nat, ghost hi: nat)
    returns (after: S)
    requires batch.Valid() && lo <= hi <= |batch.handles| && calls == batch.Calls()[lo..hi]
    modifies batch, batch.handles
    ensures batch.Valid() && batch.handles == old(batch.handles)
    ensures ProgressOf(after, batch) == RoundTrip(method_, always, batch.Calls(), lo, hi, old(ProgressOf(state, batch)))
  {
    ghost var before := ProgressOf(state, batch);
    var createdIds := CarriedIds(Some(batch.createdIds));
    batch.inFlight := IdSet(calls);
    var carried := if createdIds.Some? then createdIds.value else map[];
    var answered := Run(method_, calls, state, carried, []);
    batch.Absorb(answered.responses, Reported(always, carried, answered.created));
    after := answered.state;
    assert ProgressOf(after, batch).handles
        == RoundTrip(method_, always, batch.Calls(), lo, hi, before).handles;
  }

  /**
   * A request that was posted but brought nothing back: the server may have run it, and the
   * client keeps what it had.
   */
  function Interrupted<S>(method_: Method<S>, calls: seq<QueuedCall>, lo: nat, hi: nat, ran: bool, before: Progress<S>)
    : Progress<S>
    requires lo <= hi <= |calls|
  {
    if ran then before.(state := Run(method_, calls[lo..hi], before.state, before.created, []).state) else before
  }

  /** Where the batch and the server stand once the posting of request `sent` has raised, or all have come back. */
  ghost function Stopped<S>(
    method_: Method<S>, always: bool, calls: seq<QueuedCall>, cuts: seq<int>, sent: nat, ran: bool, start: Progress<S>)
    : Progress<S>
    requires Positions(calls, cuts) && sent < |cuts| && |start.handles| == |calls|
  {
    var reached := SplitRun(method_, always, calls, cuts, sent, start);
    if sent + 1 < |cuts| then Interrupted(method_, calls, cuts[sent], cuts[sent + 1], ran, reached) else reached
  }

  /** The ids of the request that was posted and not absorbed. */
  ghost function LeftInFlight(calls: seq<QueuedCall>, cuts: seq<int>, sent: nat): set<string>
    requires Positions(calls, cuts) && sent < |cuts|
  {
    if sent + 1 < |cuts| then IdSet(calls[cuts[sent]..cuts[sent + 1]]) else {}
  }

  /** Posts the request that raises: the server may run it, and its ids stay in flight. */
  method PostInVain<S>(
    batch: Batch, calls: seq<QueuedCall>, method_: Method<S>, state: S, ran: bool, ghost lo: nat, ghost hi: nat)
    returns (after: S)
    requires batch.Valid() && lo <= hi <= |batch.handles| && calls == batch.Calls()[lo..hi]
    modifies batch`inFlight
    ensures batch.inFlight == IdSet(calls)
    ensures ProgressOf(after, batch) == Interrupted(method_, batch.Calls(), lo, hi, ran, old(ProgressOf(state, batch)))
  {
    batch.inFlight := IdSet(calls);
    after := state;
    if ran {
      var createdIds := CarriedIds(Some(batch.createdIds));
      after := Run(method_, calls, state, if createdIds.Some? then createdIds.value else map[], []).state;
    }
  }

  /** Sends request number `sent` of a plan. */
  method SendNext<S>(
    batch: Batch, requests: seq<Request>, ghost cuts: seq<int>,
    method_: Method<S>, always: bool, state: S, sent: nat, ghost start: Progress<S>)
    returns (after: S)
    requires batch.Valid() && sent < |requests| && |start.handles| == |batch.Calls()|
    requires Positions(batch.Calls(), cuts) && (forall i :: 0 <= i < |cuts| - 1 ==> cuts[i] < cuts[i + 1])
    requires |cuts| == |requests| + 1 && requests[sent].calls == batch.Calls()[cuts[sent]..cuts[sent + 1]]
    requires ProgressOf(state, batch) == SplitRun(method_, always, batch.Calls(), cuts, sent, start)
    modifies batch, batch.handles
    ensures batch.Valid() && batch.handles == old(batch.handles)
    ensures ProgressOf(after, batch) == SplitRun(method_, always, batch.Calls(), cuts, sent + 1, start)
  {
    SplitRunStep(method_, always, batch.Calls(), cuts, sent, start);
    after := SendRequest(batch, requests[sent].calls, method_, always, state, cuts[sent], cuts[sent + 1]);
  }

  /** Sends planned requests in order until `reach` of them have come back. */
  method SendReached<S>(
    batch: Batch, requests: seq<Request>, ghost cuts: seq<int>, using: set<string>,
    method_: Method<S>, always: bool, state: S, reach: nat)
    returns (after: S, sent: nat)
    requires batch.Valid()
    requires Positions(batch.Calls(), cuts) && (forall i :: 0 <= i < |cuts| - 1 ==> cuts[i] < cuts[i + 1])
    requires CutInto(batch.Calls(), cuts, requests, using, Some(batch.createdIds))
    modifies batch, batch.handles
    ensures batch.Valid() && batch.handles == old(batch.handles)
    ensures sent == (if reach < |requests| then reach else |requests|)
    ensures ProgressOf(after, batch)
         == SplitRun(method_, always, batch.Calls(), cuts, sent, old(ProgressOf(state, batch)))
  {
    ghost var start := ProgressOf(state, batch);
    ghost var calls := batch.Calls();
    after, sent := state, 0;
    assert forall i :: 0 <= i < |requests| ==> requests[i].calls == calls[cuts[i]..cuts[i + 1]];
    while sent < |requests| && sent < reach
      invariant sent <= |requests| && sent <= reach
      invariant batch.Valid() && batch.handles == old(batch.handles) && batch.Calls() == calls
      invariant ProgressOf(after, batch) == SplitRun(method_, always, calls, cuts, sent, start)
      decreases |requests| - sent
    {
      after := SendNext(batch, requests, cuts, method_, always, after, sent, start);
      sent := sent + 1;
    }
  }

  /** Sends planned requests in order; posting the one after the first `reach` raises. */
  method SendAll<S>(
    batch: Batch, requests: seq<Request>, ghost cuts: seq<int>, using: set<string>,
    method_: Method<S>, always: bool, state: S, reach: nat, ran: bool)
    returns (after: S, sent: nat)
    requires batch.Valid()
    requires Positions(batch.Calls(), cuts) && (forall i :: 0 <= i < |cuts| - 1 ==> cuts[i] < cuts[i + 1])
    requires CutInto(batch.Calls(), cuts, requests, using, Some(batch.createdIds))
    modifies batch, batch.handles
    ensures batch.Valid() && batch.handles == old(batch.handles)
    ensures sent == (if reach < |requests| then reach else |requests|)
    ensures ProgressOf(after, batch)
         == Stopped(method_, always, batch.Calls(), cuts, sent, ran, old(ProgressOf(state, batch)))
    ensures batch.inFlight == LeftInFlight(batch.Calls(), cuts, sent)
  {
    ghost var calls := batch.Calls();
    after, sent := SendReached(batch, requests, cuts, using, method_, always, state, reach);
    if sent < |requests| {
      ghost var lo, hi := cuts[sent], cuts[sent + 1];
      assert requests[sent].calls == calls[lo..hi];
      after := PostInVain(batch, requests[sent].calls, method_, after, ran, lo, hi);
    } else {
      batch.inFlight := {};
    }
  }

  /**
   * Sends a batch, possibly as several requests, and resolves its handles. `reach` is how
   * many requests come back before posting raises, and `ran` whether the server ran the one
   * that raised all the same; `state` is the server's.
   */
  method Execute<S>(
    batch: Batch, using: set<string>, method_: Method<S>, always: bool, state: S, reach: nat, ran: bool)
    returns (outcome: Outcome<PlanError>, after: S, sent: nat, ghost cuts: seq<int>)
    requires batch.Valid()
    modifies batch, batch.handles
    ensures batch.Valid() && batch.handles == old(batch.handles)
    ensures outcome.Fail? ==>
      after == state && ProgressOf(after, batch) == old(ProgressOf(state, batch))
    ensures outcome.Pass? <==>
      || batch.handles == []
      || (&& batch.maxCallsInRequest >= 1
          && ReferencesValid(batch.Calls())
          && exists other :: IsSplit(batch.Calls(), batch.maxCallsInRequest, other))
    ensures outcome.Pass? ==>
      && IsSplit(batch.Calls(), batch.maxCallsInRequest, cuts)
      && sent == (if reach < |cuts| - 1 then reach else |cuts| - 1)
      && ProgressOf(after, batch)
           == Stopped(method_, always, batch.Calls(), cuts, sent, ran, old(ProgressOf(state, batch)))
      && batch.inFlight == LeftInFlight(batch.Calls(), cuts, sent)
  {
    after, sent := state, 0;
    if batch.handles == [] {
      cuts := [0];
      batch.inFlight := {};
      assert ProgressOf(after, batch) == SplitRun(method_, always, batch.Calls(), cuts, 0, ProgressOf(state, batch));
      return Pass, after, sent, cuts;
    }
    var plan;
    plan, cuts := PlanRequests(Queued(batch.handles), using, batch.maxCallsInRequest, Some(batch.createdIds));
    if plan.Failure? { return Fail(plan.error), after, sent, cuts; }
    outcome := Pass;
    after, sent := SendAll(batch, plan.value, cuts, using, method_, always, state, reach, ran);
  }

  /** A batch that ran to its end holds, at every handle, the answer of one unsplit request. */
  method ExecuteAll<S>(batch: Batch, using: set<string>, method_: Method<S>, always: bool, state: S)
    returns (outcome: Outcome<PlanError>, after: S)
    requires batch.Valid()
    requires forall i :: 0 <= i < |batch.handles| ==> batch.handles[i].State() == UNSENT
    requires always || batch.createdIds != map[]
    modifies batch, batch.handles
    ensures batch.Valid() && batch.handles == old(batch.handles)
    ensures outcome.Pass? ==>
      && ProgressOf(after, batch) == OneRequest(method_, always, batch.Calls(), old(ProgressOf(state, batch)))
      && forall i :: 0 <= i < |batch.handles| ==> batch.handles[i].State().resolved
  {
    ghost var start := ProgressOf(state, batch);
    BatchIdsUnique(batch.handles);
    var sent;
    ghost var cuts;
    outcome, after, sent, cuts := Execute(batch, using, method_, always, state, |batch.handles|, false);
    if outcome.Pass? {
      CutsFewerThanCalls(batch.Calls(), batch.maxCallsInRequest, cuts, |cuts| - 1);
      SplitPreservesMeaning(method_, always, batch.Calls(), batch.maxCallsInRequest, cuts, start);
      forall i | 0 <= i < |batch.handles| ensures batch.handles[i].State().resolved {
        assert ProgressOf(after, batch).handles[i].resolved;
      }
    }
  }

  lemma {:induction false} CutsFewerThanCalls(calls: seq<QueuedCall>, limit: int, cuts: seq<int>, i: nat)
    requires IsSplit(calls, limit, cuts) && i < |cuts|
    ensures i <= cuts[i]
  {
    if i > 0 {
      CutsFewerThanCalls(calls, limit, cuts, i - 1);
      assert cuts[i - 1] < cuts[i - 1 + 1];
    }
  }
}
