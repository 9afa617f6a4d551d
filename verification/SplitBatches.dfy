/**
 * Splitting a batch into several requests preserves its meaning: every handle ends with
 * the answer one unsplit request would have given (src/jmap/batch.py, src/jmap/core/request.py).
 */
module SplitBatches {
  import opened Wrappers
  import opened Invocations
  import opened Requests
  import opened Responses
  import opened Servers
  import Json

  /** What a handle becomes when a response arrives; a call the request carried must be answered. */
  function Absorbed(id: string, call: MethodCall, state: HandleState, inFlight: set<string>,
                    invocations: seq<Invocation>): HandleState {
    var routed := Dispatched(id, call, state, invocations);
    if id in inFlight && !routed.resolved
    then routed.Failed(MethodError(Json.Str("missingResponse"), id, map[]))
    else routed
  }

  function AbsorbedAll(calls: seq<QueuedCall>, states: seq<HandleState>, inFlight: set<string>,
                       invocations: seq<Invocation>): seq<HandleState>
    requires |states| == |calls|
  {
    seq(|calls|, i requires 0 <= i < |calls| =>
      Absorbed(calls[i].id, calls[i].call, states[i], inFlight, invocations))
  }

  function IdSet(calls: seq<QueuedCall>): set<string> {
    set i | 0 <= i < |calls| :: calls[i].id
  }

  // The server, the client's creation ids and the handles, between two requests.
  datatype Progress<S> = Progress(state: S, created: map<string, string>, handles: seq<HandleState>)

  /**
   * The creation ids a response reports. Section 3.4 of RFC 8620 lets a server leave them
   * out unless the request carried some; `always` is a server that reports them regardless.
   */
  function Reported(always: bool, carried: map<string, string>, full: map<string, string>): map<string, string> {
    if always || carried != map[] then full else map[]
  }

  /** Sends the calls from `lo` up to `hi` as one request and absorbs the response. */
  function RoundTrip<S>(method_: Method<S>, always: bool, calls: seq<QueuedCall>, lo: nat, hi: nat,
                        before: Progress<S>): (after: Progress<S>)
    requires lo <= hi <= |calls| == |before.handles|
    ensures |after.handles| == |calls|
  {
    var answered := Run(method_, calls[lo..hi], before.state, before.created, []);
    Progress(answered.state,
             before.created + Reported(always, before.created, answered.created),
             AbsorbedAll(calls, before.handles, IdSet(calls[lo..hi]), answered.responses))
  }

  ghost predicate Positions(calls: seq<QueuedCall>, cuts: seq<int>) {
    && (forall i :: 0 <= i < |cuts| ==> 0 <= cuts[i] <= |calls|)
    && (forall i :: 0 <= i < |cuts| - 1 ==> cuts[i] <= cuts[i + 1])
  }

  /** The first `k` requests of a split, one after the other. */
  ghost function SplitRun<S>(method_: Method<S>, always: bool, calls: seq<QueuedCall>, cuts: seq<int>, k: nat,
                             start: Progress<S>): (after: Progress<S>)
    requires Positions(calls, cuts) && k < |cuts|
    requires |start.handles| == |calls|
    ensures |after.handles| == |calls|
  {
    if k == 0 then start
    else RoundTrip(method_, always, calls, cuts[k - 1], cuts[k], SplitRun(method_, always, calls, cuts, k - 1, start))
  }

  lemma SplitRunStep<S>(
    method_: Method<S>, always: bool, calls: seq<QueuedCall>, cuts: seq<int>, k: nat, start: Progress<S>)
    requires Positions(calls, cuts) && k + 1 < |cuts| && |start.handles| == |calls|
    ensures SplitRun(method_, always, calls, cuts, k + 1, start)
         == RoundTrip(method_, always, calls, cuts[k], cuts[k + 1], SplitRun(method_, always, calls, cuts, k, start))
  {}

  ghost function OneRequest<S>(method_: Method<S>, always: bool, calls: seq<QueuedCall>, start: Progress<S>)
    : (after: Progress<S>)
    requires |start.handles| == |calls|
  {
    RoundTrip(method_, always, calls, 0, |calls|, start)
  }

  ghost predicate Fresh<S>(calls: seq<QueuedCall>, start: Progress<S>) {
    && |start.handles| == |calls|
    && forall i :: 0 <= i < |calls| ==> start.handles[i] == UNSENT
  }

  // ---------------------------------------------------------------------------
  // One request of the split, seen from the unsplit run
  // ---------------------------------------------------------------------------

  /** Calls after a legal cut refer to nothing that ran before it. */
  lemma RefsStayAfterCut(calls: seq<QueuedCall>, cut: nat, hi: nat, earlier: seq<Invocation>)
    requires UniqueIds(calls) && LegalCut(calls, cut) && cut <= hi <= |calls|
    requires LabelledBy(earlier, calls[..cut])
    ensures forall i :: 0 <= i < |calls[cut..hi]| ==>
              SameFor(References(calls[cut..hi][i].call.arguments), earlier, [])
  {
    forall i | 0 <= i < |calls[cut..hi]|
      ensures SameFor(References(calls[cut..hi][i].call.arguments), earlier, [])
    {
      assert calls[cut..hi][i] == calls[cut + i];
      var refs := RefsOf(calls[cut + i]);
      forall k | 0 <= k < |refs|
        ensures ForCall(earlier, refs[k].ref.resultOf) == []
      {
        assert Target(calls, RefsOf(calls[cut + i])[k]) >= cut;
        ForCallAbsent(earlier, refs[k].ref.resultOf);
      }
    }
  }

  /** The unsplit run up to `hi`, told as a run up to a legal cut and one fresh request. */
  lemma RunAcrossCut<S>(
    method_: Method<S>, calls: seq<QueuedCall>, lo: nat, hi: nat, state: S, created: map<string, string>)
    requires UniqueIds(calls) && lo <= hi <= |calls| && LegalCut(calls, lo)
    ensures
      var before := Run(method_, calls[..lo], state, created, []);
      var request := Run(method_, calls[lo..hi], before.state, before.created, []);
      Run(method_, calls[..hi], state, created, [])
        == Execution(request.state, request.created, before.responses + request.responses)
  {
    var before := Run(method_, calls[..lo], state, created, []);
    assert calls[..hi] == calls[..lo] + calls[lo..hi];
    RunConcat(method_, calls[..lo], calls[lo..hi], state, created, []);
    assert [] + before.responses == before.responses;
    RunLabels(method_, calls[..lo], state, created, []);
    RefsStayAfterCut(calls, lo, hi, before.responses);
    RunDependsOnRefs(method_, calls[lo..hi], before.state, before.created, before.responses, []);
  }

  /** A run of some calls answers no other call. */
  lemma OthersUnanswered<S>(
    method_: Method<S>, calls: seq<QueuedCall>, lo: nat, hi: nat, i: nat,
    state: S, created: map<string, string>, earlier: seq<Invocation>)
    requires UniqueIds(calls) && lo <= hi <= |calls| && i < |calls| && !(lo <= i < hi)
    ensures ForCall(Run(method_, calls[lo..hi], state, created, earlier).responses, calls[i].id) == []
  {
    var responses := Run(method_, calls[lo..hi], state, created, earlier).responses;
    RunLabels(method_, calls[lo..hi], state, created, earlier);
    forall k | 0 <= k < |responses| ensures responses[k].callId != calls[i].id {
      assert HasId(calls[lo..hi], responses[k].callId);
      var j :| 0 <= j < hi - lo && calls[lo..hi][j].id == responses[k].callId;
      assert calls[lo..hi][j] == calls[lo + j];
    }
    ForCallAbsent(responses, calls[i].id);
  }

  /** The answers to call `i` among the first `hi` calls are those of the request that carried it. */
  lemma AnswersUpTo<S>(
    method_: Method<S>, calls: seq<QueuedCall>, lo: nat, hi: nat, i: nat, state: S, created: map<string, string>)
    requires UniqueIds(calls) && lo <= i < hi <= |calls| && LegalCut(calls, lo)
    ensures
      var before := Run(method_, calls[..lo], state, created, []);
      ForCall(Run(method_, calls[lo..hi], before.state, before.created, []).responses, calls[i].id)
        == ForCall(Run(method_, calls[..hi], state, created, []).responses, calls[i].id)
  {
    var before := Run(method_, calls[..lo], state, created, []);
    var request := Run(method_, calls[lo..hi], before.state, before.created, []);
    RunAcrossCut(method_, calls, lo, hi, state, created);
    ForCallConcat(before.responses, request.responses, calls[i].id);
    assert calls[..lo] == calls[0..lo];
    OthersUnanswered(method_, calls, 0, lo, i, state, created, []);
  }

  /** Later requests add nothing to the answers of call `i`. */
  lemma AnswersSettled<S>(
    method_: Method<S>, calls: seq<QueuedCall>, hi: nat, i: nat, state: S, created: map<string, string>)
    requires UniqueIds(calls) && i < hi <= |calls| && LegalCut(calls, hi)
    ensures ForCall(Run(method_, calls[..hi], state, created, []).responses, calls[i].id)
         == ForCall(Run(method_, calls, state, created, []).responses, calls[i].id)
  {
    var upTo := Run(method_, calls[..hi], state, created, []);
    var after := Run(method_, calls[hi..|calls|], upTo.state, upTo.created, []);
    RunAcrossCut(method_, calls, hi, |calls|, state, created);
    assert calls[..|calls|] == calls;
    ForCallConcat(upTo.responses, after.responses, calls[i].id);
    OthersUnanswered(method_, calls, hi, |calls|, i, upTo.state, upTo.created, []);
  }

  // ---------------------------------------------------------------------------
  // The main results
  // ---------------------------------------------------------------------------

  /** What absorbing the request of calls `lo` to `hi` does to handle `i`, in terms of the unsplit answers. */
  lemma AbsorbedInOneRequest<S>(
    method_: Method<S>, calls: seq<QueuedCall>, lo: nat, hi: nat, i: nat, handle: HandleState,
    state: S, created: map<string, string>)
    requires UniqueIds(calls) && lo <= hi <= |calls| && i < |calls|
    requires LegalCut(calls, lo) && LegalCut(calls, hi)
    ensures
      var before := Run(method_, calls[..lo], state, created, []);
      var request := Run(method_, calls[lo..hi], before.state, before.created, []);
      var whole := Run(method_, calls, state, created, []);
      Absorbed(calls[i].id, calls[i].call, handle, IdSet(calls[lo..hi]), request.responses)
        == if lo <= i < hi
           then Absorbed(calls[i].id, calls[i].call, handle, IdSet(calls), whole.responses)
           else handle
  {
    var before := Run(method_, calls[..lo], state, created, []);
    InSlice(calls, lo, hi, i);
    InSlice(calls, 0, |calls|, i);
    assert calls[0..|calls|] == calls;
    if lo <= i < hi {
      AnswersUpTo(method_, calls, lo, hi, i, state, created);
      AnswersSettled(method_, calls, hi, i, state, created);
    } else {
      OthersUnanswered(method_, calls, lo, hi, i, before.state, before.created, []);
    }
  }

  /** Each request leaves the client with the creation ids the server ended on. */
  lemma CreatedIdsFollow<S>(
    method_: Method<S>, always: bool, calls: seq<QueuedCall>, lo: nat, hi: nat, state: S, created: map<string, string>)
    requires lo <= hi <= |calls|
    requires always || created != map[]
    ensures
      var before := Run(method_, calls[..lo], state, created, []);
      var request := Run(method_, calls[lo..hi], before.state, before.created, []);
      before.created + Reported(always, before.created, request.created) == request.created
  {
    var before := Run(method_, calls[..lo], state, created, []);
    RunKeepsCreated(method_, calls[..lo], state, created, []);
    RunKeepsCreated(method_, calls[lo..hi], before.state, before.created, []);
    NonEmptyKeys(created, before.created);
  }

  /**
   * After the first `k` requests: the server and the creation ids are where the unsplit run
   * stands after those calls, each of those calls has its unsplit answer, and no other call
   * has any.
   */
  lemma {:induction false} SplitRunPrefix<S>(
    method_: Method<S>, always: bool, calls: seq<QueuedCall>, limit: int, cuts: seq<int>, k: nat, start: Progress<S>)
    requires UniqueIds(calls) && IsSplit(calls, limit, cuts) && k < |cuts|
    requires Fresh(calls, start)
    requires always || start.created != map[]
    ensures
      var split := SplitRun(method_, always, calls, cuts, k, start);
      var prefix := Run(method_, calls[..cuts[k]], start.state, start.created, []);
      && split.state == prefix.state
      && split.created == prefix.created
      && forall i :: 0 <= i < |calls| ==>
           split.handles[i] ==
             if i < cuts[k] then OneRequest(method_, always, calls, start).handles[i] else UNSENT
  {
    var split := SplitRun(method_, always, calls, cuts, k, start);
    if k > 0 {
      var lo, hi := cuts[k - 1], cuts[k];
      SplitRunPrefix(method_, always, calls, limit, cuts, k - 1, start);
      RunAcrossCut(method_, calls, lo, hi, start.state, start.created);
      CreatedIdsFollow(method_, always, calls, lo, hi, start.state, start.created);
      assert calls[0..|calls|] == calls;
      forall i | 0 <= i < |calls|
        ensures split.handles[i] ==
             if i < hi then OneRequest(method_, always, calls, start).handles[i] else UNSENT
      {
        var handle := SplitRun(method_, always, calls, cuts, k - 1, start).handles[i];
        AbsorbedInOneRequest(method_, calls, lo, hi, i, handle, start.state, start.created);
      }
    }
  }

  lemma NonEmptyKeys(small: map<string, string>, large: map<string, string>)
    requires small.Keys <= large.Keys
    ensures small != map[] ==> large != map[]
  {
    if small != map[] {
      var key :| key in small;
      assert key in large.Keys;
    }
  }

  lemma InSlice(calls: seq<QueuedCall>, lo: nat, hi: nat, i: nat)
    requires UniqueIds(calls) && lo <= hi <= |calls| && i < |calls|
    ensures calls[i].id in IdSet(calls[lo..hi]) <==> lo <= i < hi
  {
    if lo <= i < hi { assert calls[lo..hi][i - lo] == calls[i]; }
  }

  /** Every handle is resolved by the one unsplit request. */
  lemma OneRequestResolves<S>(
    method_: Method<S>, always: bool, calls: seq<QueuedCall>, start: Progress<S>, i: nat)
    requires UniqueIds(calls) && |start.handles| == |calls| && i < |calls|
    ensures OneRequest(method_, always, calls, start).handles[i].resolved
  {
    assert calls[0..|calls|] == calls;
    InSlice(calls, 0, |calls|, i);
  }

  /**
   * Splitting changes nothing: server, creation ids and every handle end as one request
   * leaves them, and every handle is resolved.
   */
  lemma SplitPreservesMeaning<S>(
    method_: Method<S>, always: bool, calls: seq<QueuedCall>, limit: int, cuts: seq<int>, start: Progress<S>)
    requires UniqueIds(calls) && IsSplit(calls, limit, cuts)
    requires Fresh(calls, start)
    requires always || start.created != map[]
    ensures
      var split := SplitRun(method_, always, calls, cuts, |cuts| - 1, start);
      && split == OneRequest(method_, always, calls, start)
      && forall i :: 0 <= i < |calls| ==> split.handles[i].resolved
  {
    var split := SplitRun(method_, always, calls, cuts, |cuts| - 1, start);
    var one := OneRequest(method_, always, calls, start);
    SplitRunPrefix(method_, always, calls, limit, cuts, |cuts| - 1, start);
    assert calls[..|calls|] == calls && calls[0..|calls|] == calls && calls[..0] == [];
    CreatedIdsFollow(method_, always, calls, 0, |calls|, start.state, start.created);
    assert split.handles == one.handles;
    forall i | 0 <= i < |calls| ensures split.handles[i].resolved {
      OneRequestResolves(method_, always, calls, start, i);
    }
  }

  // ---------------------------------------------------------------------------
  // Why the server's report matters
  // ---------------------------------------------------------------------------

  /** A server on which `Foo/set` creates `k` and `Bar/set` answers whether it knows `k`. */
  function CreateThenAsk(state: int, name: string, arguments: Json.Members, created: map<string, string>)
    : Effect<int> {
    if name == "Foo/set" then Effect(state, [NamedResponse(name, map[])], map["k" := "id"])
    else Effect(state, [NamedResponse(name, map["known" := Json.Bool("k" in created)])], map[])
  }

  function KeepObject(arguments: Json.Members): Option<Json.Value> {
    Some(Json.Object(arguments))
  }

  const CREATE := QueuedCall("c1", MethodCall("Foo/set", [], KeepObject))
  const ASK := QueuedCall("c2", MethodCall("Bar/set", [], KeepObject))

  function Known(answer: bool): Json.Members {
    map["known" := Json.Bool(answer)]
  }

  /** A call answered once, under its own name, is told what its parser makes of the answer. */
  lemma SoleAnswer(
    id: string, call: MethodCall, inFlight: set<string>, invocations: seq<Invocation>, answer: Invocation)
    requires ForCall(invocations, id) == [answer] && answer.name == call.name != ERROR_RESPONSE
    requires call.parse(answer.arguments).Some?
    ensures Absorbed(id, call, UNSENT, inFlight, invocations).result == call.parse(answer.arguments)
  {}

  lemma RunAsk(created: map<string, string>, earlier: seq<Invocation>)
    ensures RunCall(CreateThenAsk, ASK, 0, created, earlier).responses
         == [Invocation("Bar/set", Known("k" in created), "c2")]
  {}

  /** What the second call is told depends only on the creation ids its request starts with. */
  lemma AskAnswer(created: map<string, string>, inFlight: set<string>, earlier: seq<Invocation>)
    requires ForCall(earlier, "c2") == []
    ensures
      var responses := earlier + RunCall(CreateThenAsk, ASK, 0, created, earlier).responses;
      Absorbed("c2", ASK.call, UNSENT, inFlight, responses).result == Some(Json.Object(Known("k" in created)))
  {
    var answer := Invocation("Bar/set", Known("k" in created), "c2");
    RunAsk(created, earlier);
    OnlyAnswer(earlier, answer);
    assert "Bar/set"[0] != ERROR_RESPONSE[0];
    SoleAnswer("c2", ASK.call, inFlight, earlier + [answer], answer);
  }

  lemma OnlyAnswer(earlier: seq<Invocation>, answer: Invocation)
    requires ForCall(earlier, answer.callId) == []
    ensures ForCall(earlier + [answer], answer.callId) == [answer]
  {
    assert (earlier + [answer])[..|earlier|] == earlier;
  }

  lemma RunOne<S>(
    method_: Method<S>, call: QueuedCall, state: S, created: map<string, string>, earlier: seq<Invocation>)
    ensures Run(method_, [call], state, created, earlier) == RunCall(method_, call, state, created, earlier)
  {
    var first := RunCall(method_, call, state, created, earlier);
    assert [call][1..] == [];
    assert first.responses + [] == first.responses;
  }

  /** Sent first and alone, the creating call reports no id back. */
  lemma CreateAlone(calls: seq<QueuedCall>, start: Progress<int>)
    requires calls == [CREATE, ASK] && start == Progress(0, map[], [UNSENT, UNSENT])
    ensures
      var after := RoundTrip(CreateThenAsk, false, calls, 0, 1, start);
      after.state == 0 && after.created == map[] && after.handles[1] == UNSENT
  {
    assert calls[0..1] == [CREATE];
    RunOne(CreateThenAsk, CREATE, 0, map[], []);
    var responses := RunCall(CreateThenAsk, CREATE, 0, map[], []).responses;
    ForCallAbsent(responses, "c2");
    assert IdSet([CREATE]) == {"c1"} by { assert [CREATE][0].id == "c1"; }
  }

  lemma AskAlone(calls: seq<QueuedCall>, before: Progress<int>)
    requires calls == [CREATE, ASK] && |before.handles| == 2
    requires before.state == 0 && before.created == map[] && before.handles[1] == UNSENT
    ensures RoundTrip(CreateThenAsk, false, calls, 1, 2, before).handles[1].result == Some(Json.Object(Known(false)))
  {
    assert calls[1..2] == [ASK];
    RunOne(CreateThenAsk, ASK, 0, map[], []);
    AskAnswer(map[], IdSet([ASK]), []);
    var responses := RunCall(CreateThenAsk, ASK, 0, map[], []).responses;
    assert [] + responses == responses;
  }

  lemma AskTogether(calls: seq<QueuedCall>, start: Progress<int>)
    requires calls == [CREATE, ASK] && start == Progress(0, map[], [UNSENT, UNSENT])
    ensures OneRequest(CreateThenAsk, false, calls, start).handles[1].result == Some(Json.Object(Known(true)))
  {
    var m := CreateThenAsk;
    var first := RunCall(m, CREATE, 0, map[], []);
    ForCallAbsent(first.responses, "c2");
    var second := RunCall(m, ASK, 0, first.created, first.responses);
    AskAnswer(first.created, IdSet(calls), first.responses);
    assert calls[0..2] == calls && calls[1..] == [ASK];
    assert [] + first.responses == first.responses;
    RunOne(m, ASK, 0, first.created, first.responses);
    assert Run(m, calls, 0, map[], []).responses == first.responses + second.responses;
  }

  lemma TwoCallSplit(calls: seq<QueuedCall>)
    requires calls == [CREATE, ASK]
    ensures UniqueIds(calls) && ReferencesValid(calls) && IsSplit(calls, 1, [0, 1, 2])
  {
    assert RefsOf(CREATE) == [] && RefsOf(ASK) == [];
    assert CREATE.id[1] != ASK.id[1];
  }

  /** With no ids to carry and a server that then reports none, the split batch loses a creation id. */
  lemma UnreportedIdsAreLost(calls: seq<QueuedCall>, start: Progress<int>)
    requires calls == [CREATE, ASK] && start == Progress(0, map[], [UNSENT, UNSENT])
    ensures UniqueIds(calls) && ReferencesValid(calls) && IsSplit(calls, 1, [0, 1, 2]) && Fresh(calls, start)
    ensures SplitRun(CreateThenAsk, false, calls, [0, 1, 2], 2, start).handles[1]
         != OneRequest(CreateThenAsk, false, calls, start).handles[1]
  {
    TwoCallSplit(calls);
    CreateAlone(calls, start);
    var alone := SplitRun(CreateThenAsk, false, calls, [0, 1, 2], 1, start);
    assert SplitRun(CreateThenAsk, false, calls, [0, 1, 2], 0, start) == start;
    assert alone == RoundTrip(CreateThenAsk, false, calls, 0, 1, start);
    AskAlone(calls, alone);
    AskTogether(calls, start);
    assert Known(true)["known"] != Known(false)["known"];
  }

  /** Splitting a fixed batch on a fixed server changes nothing. */
  ghost predicate SplitsAlike(
    method_: Method<int>, always: bool, calls: seq<QueuedCall>, limit: int, cuts: seq<int>, start: Progress<int>)
  {
    UniqueIds(calls) && IsSplit(calls, limit, cuts) && Fresh(calls, start) ==>
    SplitRun(method_, always, calls, cuts, |cuts| - 1, start) == OneRequest(method_, always, calls, start)
  }

  lemma ReportedSplitsAlike(
    method_: Method<int>, always: bool, calls: seq<QueuedCall>, limit: int, cuts: seq<int>, start: Progress<int>)
    requires always || start.created != map[]
    ensures SplitsAlike(method_, always, calls, limit, cuts, start)
  {
    if UniqueIds(calls) && IsSplit(calls, limit, cuts) && Fresh(calls, start) {
      SplitPreservesMeaning(method_, always, calls, limit, cuts, start);
    }
  }

  lemma UnreportedSplitsUnlike(calls: seq<QueuedCall>, start: Progress<int>)
    requires calls == [CREATE, ASK] && start == Progress(0, map[], [UNSENT, UNSENT])
    ensures !SplitsAlike(CreateThenAsk, false, calls, 1, [0, 1, 2], start)
  {
    UnreportedIdsAreLost(calls, start);
  }

  /**
   * The exact condition: whatever the server does and however the batch is cut, splitting
   * changes nothing if and only if the server reports ids regardless, or the batch starts
   * with ids to carry.
   */
  lemma SplitsSafelyExactlyWhenReported(always: bool, created: map<string, string>)
    ensures always || created != map[] <==>
            forall method_: Method<int>, calls, limit, cuts, start: Progress<int> :: start.created == created ==>
              SplitsAlike(method_, always, calls, limit, cuts, start)
  {
    if always || created != map[] {
      forall method_: Method<int>, calls, limit, cuts, start: Progress<int> | start.created == created
        ensures SplitsAlike(method_, always, calls, limit, cuts, start)
      {
        ReportedSplitsAlike(method_, always, calls, limit, cuts, start);
      }
    } else {
      UnreportedSplitsUnlike([CREATE, ASK], Progress(0, map[], [UNSENT, UNSENT]));
    }
  }
}
