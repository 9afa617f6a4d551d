/** Splitting a batch under `maxCallsInRequest` (src/jmap/core/request.py). */
module Requests {
  import opened Wrappers
  import opened Invocations

  datatype Request = Request(
    using: set<string>,
    calls: seq<QueuedCall>,
    createdIds: Option<map<string, string>>)

  datatype PlanError =
    | BadLimit(limit: int)
    | InvalidReference(sourceId: string, argument: string)
    | BatchTooLarge(callIds: seq<string>, limit: int)

  /** An empty map of creation ids is left out of the request. */
  function CarriedIds(createdIds: Option<map<string, string>>): Option<map<string, string>> {
    if createdIds == Some(map[]) then None else createdIds
  }

  function Ids(calls: seq<QueuedCall>): seq<string> {
    seq(|calls|, i requires 0 <= i < |calls| => calls[i].id)
  }

  // ---------------------------------------------------------------------------
  // References
  // ---------------------------------------------------------------------------

  /** Where the last call carrying `id` is; -1 when no call does. */
  function LastIndexOf(calls: seq<QueuedCall>, id: string): (i: int)
    ensures -1 <= i < |calls|
    ensures i >= 0 ==> calls[i].id == id
    ensures forall j :: i < j < |calls| ==> calls[j].id != id
  {
    if calls == [] then -1
    else if calls[|calls| - 1].id == id then |calls| - 1
    else LastIndexOf(calls[..|calls| - 1], id)
  }

  /** A reference names an earlier call, and the latest earlier call of that id has the expected name. */
  predicate Resolvable(earlier: seq<QueuedCall>, ref: ResultRef) {
    var i := LastIndexOf(earlier, ref.resultOf);
    i >= 0 && earlier[i].call.name == ref.name
  }

  function RefsOf(call: QueuedCall): seq<NamedRef> {
    References(call.call.arguments)
  }

  ghost predicate ReferencesValid(calls: seq<QueuedCall>) {
    forall i, k {:trigger RefsOf(calls[i])[k]} :: 0 <= i < |calls| && 0 <= k < |RefsOf(calls[i])| ==>
      Resolvable(calls[..i], RefsOf(calls[i])[k].ref)
  }

  /** `error` names the first reference, in call and argument order, that cannot be satisfied. */
  ghost predicate FirstBadReference(calls: seq<QueuedCall>, error: PlanError) {
    exists i, k {:trigger RefsOf(calls[i])[k]} ::
      0 <= i < |calls| && 0 <= k < |RefsOf(calls[i])|
      && ReferencesValid(calls[..i])
      && (forall m :: 0 <= m < k ==> Resolvable(calls[..i], RefsOf(calls[i])[m].ref))
      && !Resolvable(calls[..i], RefsOf(calls[i])[k].ref)
      && error == InvalidReference(calls[i].id, RefsOf(calls[i])[k].argument)
  }

  /** The calls seen so far: each id with the name of the latest call that carries it. */
  ghost predicate Seen(earlier: seq<QueuedCall>, seen: map<string, string>) {
    && (forall id :: id in seen <==> LastIndexOf(earlier, id) >= 0)
    && (forall id :: id in seen ==> seen[id] == earlier[LastIndexOf(earlier, id)].call.name)
  }

  /** Where the first reference stands that cannot be satisfied; their number when all can. */
  method FirstUnresolvable(ghost earlier: seq<QueuedCall>, seen: map<string, string>, refs: seq<NamedRef>)
    returns (k: nat)
    requires Seen(earlier, seen)
    ensures k <= |refs|
    ensures forall m :: 0 <= m < k ==> Resolvable(earlier, refs[m].ref)
    ensures k < |refs| ==> !Resolvable(earlier, refs[k].ref)
  {
    k := 0;
    while k < |refs|
      invariant k <= |refs|
      invariant forall m :: 0 <= m < k ==> Resolvable(earlier, refs[m].ref)
    {
      var ref := refs[k].ref;
      if ref.resultOf !in seen || ref.name != seen[ref.resultOf] { return; }
      k := k + 1;
    }
  }

  lemma SeenOneMore(calls: seq<QueuedCall>, i: nat, seen: map<string, string>)
    requires i < |calls| && Seen(calls[..i], seen)
    ensures Seen(calls[..i + 1], seen[calls[i].id := calls[i].call.name])
  {
    assert calls[..i + 1][..i] == calls[..i];
  }

  method ValidateReferences(calls: seq<QueuedCall>) returns (result: Outcome<PlanError>)
    ensures result.Pass? <==> ReferencesValid(calls)
    ensures result.Fail? ==> FirstBadReference(calls, result.error)
  {
    var seen: map<string, string> := map[];
    for i := 0 to |calls|
      invariant Seen(calls[..i], seen)
      invariant ReferencesValid(calls[..i])
    {
      var refs := RefsOf(calls[i]);
      var k := FirstUnresolvable(calls[..i], seen, refs);
      if k < |refs| {
        assert !Resolvable(calls[..i], RefsOf(calls[i])[k].ref);
        return Fail(InvalidReference(calls[i].id, refs[k].argument));
      }
      SeenOneMore(calls, i, seen);
      seen := seen[calls[i].id := calls[i].call.name];
      ValidPrefixExtends(calls, i);
    }
    assert calls[..|calls|] == calls;
    return Pass;
  }

  lemma ValidPrefixExtends(calls: seq<QueuedCall>, i: nat)
    requires i < |calls|
    requires ReferencesValid(calls[..i])
    requires forall m :: 0 <= m < |RefsOf(calls[i])| ==> Resolvable(calls[..i], RefsOf(calls[i])[m].ref)
    ensures ReferencesValid(calls[..i + 1])
  {
    var longer := calls[..i + 1];
    forall j, k | 0 <= j < |longer| && 0 <= k < |RefsOf(longer[j])|
      ensures Resolvable(longer[..j], RefsOf(longer[j])[k].ref)
    {
      assert longer[..j] == calls[..j];
      if j < i {
        assert calls[..i][..j] == calls[..j];
        assert RefsOf(calls[..i][j])[k] == RefsOf(longer[j])[k];
      }
    }
  }

  // ---------------------------------------------------------------------------
  // Cuts
  // ---------------------------------------------------------------------------

  /** Whether a request may end before call `cut`: nothing from there on refers back across it. */
  ghost predicate LegalCut(calls: seq<QueuedCall>, cut: int) {
    forall j, k {:trigger RefsOf(calls[j])[k]} ::
      0 <= j < |calls| && cut <= j && 0 <= k < |RefsOf(calls[j])| ==>
      Target(calls, RefsOf(calls[j])[k]) >= cut
  }

  function Target(calls: seq<QueuedCall>, ref: NamedRef): int {
    LastIndexOf(calls, ref.ref.resultOf)
  }

  /** The lowest position the references name, or `default` when there are none. */
  function LowestTarget(calls: seq<QueuedCall>, refs: seq<NamedRef>, default: int): int {
    if refs == [] then default
    else
      var first := Target(calls, refs[0]);
      var rest := LowestTarget(calls, refs[1..], first);
      if first < rest then first else rest
  }

  lemma {:induction false} LowestTargetBound(calls: seq<QueuedCall>, refs: seq<NamedRef>, default: int, cut: int)
    requires cut <= default
    ensures LowestTarget(calls, refs, default) >= cut <==>
            forall k :: 0 <= k < |refs| ==> Target(calls, refs[k]) >= cut
  {
    if refs != [] {
      var first := Target(calls, refs[0]);
      if first >= cut {
        LowestTargetBound(calls, refs[1..], first, cut);
        assert forall k :: 1 <= k < |refs| ==> refs[k] == refs[1..][k - 1];
      }
    }
  }

  /** LegalCut, but looking only at the references of the calls from `from` on. */
  ghost predicate LegalFrom(calls: seq<QueuedCall>, from: int, cut: int) {
    forall j, k {:trigger RefsOf(calls[j])[k]} ::
      0 <= j < |calls| && from <= j && 0 <= k < |RefsOf(calls[j])| ==>
      Target(calls, RefsOf(calls[j])[k]) >= cut
  }

  lemma LegalFromStep(calls: seq<QueuedCall>, i: int, cut: int)
    requires 0 <= cut <= i < |calls|
    ensures LegalFrom(calls, i, cut) <==>
            LegalFrom(calls, i + 1, cut) && LowestTarget(calls, RefsOf(calls[i]), i) >= cut
  {
    LowestTargetBound(calls, RefsOf(calls[i]), i, cut);
  }

  /** Where a request may end. One pass from the end, carrying the lowest position referenced so far. */
  method CutPoints(calls: seq<QueuedCall>) returns (legal: seq<bool>)
    ensures |legal| == |calls| + 1
    ensures forall i :: 0 <= i <= |calls| ==> (legal[i] <==> LegalCut(calls, i))
  {
    var lowest: seq<int> := [];
    for i := 0 to |calls|
      invariant |lowest| == i
      invariant forall j :: 0 <= j < i ==> lowest[j] == LowestTarget(calls, RefsOf(calls[j]), j)
    {
      lowest := lowest + [LowestTarget(calls, RefsOf(calls[i]), i)];
    }
    legal := seq(|calls| + 1, _ => true);
    var reach := |calls|;
    for i := |calls| downto 0
      invariant |legal| == |calls| + 1
      invariant forall cut :: 0 <= cut <= i ==> (LegalFrom(calls, i, cut) <==> reach >= cut)
      invariant forall j :: i <= j <= |calls| ==> (legal[j] <==> LegalCut(calls, j))
    {
      forall cut | 0 <= cut <= i
        ensures LegalFrom(calls, i, cut) <==> reach >= cut && lowest[i] >= cut
      {
        LegalFromStep(calls, i, cut);
      }
      reach := if lowest[i] < reach then lowest[i] else reach;
      legal := legal[i := reach >= i];
      assert LegalFrom(calls, i, i) <==> LegalCut(calls, i);
    }
  }

  // ---------------------------------------------------------------------------
  // Planning
  // ---------------------------------------------------------------------------

  /** Cut positions that start at 0, end at `end`, and leave requests of at most `limit` calls. */
  ghost predicate IsSplitTo(calls: seq<QueuedCall>, limit: int, cuts: seq<int>, end: int) {
    && |cuts| >= 1
    && cuts[0] == 0
    && cuts[|cuts| - 1] == end
    && (forall i :: 0 <= i < |cuts| - 1 ==> cuts[i] < cuts[i + 1] <= cuts[i] + limit)
    && (forall i :: 0 <= i < |cuts| ==> 0 <= cuts[i] <= |calls| && LegalCut(calls, cuts[i]))
  }

  ghost predicate IsSplit(calls: seq<QueuedCall>, limit: int, cuts: seq<int>) {
    IsSplitTo(calls, limit, cuts, |calls|)
  }

  /** No request may end in (from, to]. */
  ghost predicate NoCutIn(calls: seq<QueuedCall>, from: int, to: int) {
    forall cut :: from < cut <= to && cut <= |calls| ==> !LegalCut(calls, cut)
  }

  /** Every request but the last takes as many calls as it can. */
  ghost predicate Greedy(calls: seq<QueuedCall>, limit: int, cuts: seq<int>) {
    forall i :: 0 <= i < |cuts| - 1 ==> NoCutIn(calls, cuts[i + 1], cuts[i] + limit)
  }

  /** Request i holds the calls between cuts i and i + 1; only the first carries the creation ids. */
  ghost predicate CutInto(
    calls: seq<QueuedCall>, cuts: seq<int>, requests: seq<Request>,
    using: set<string>, createdIds: Option<map<string, string>>)
    requires forall i :: 0 <= i < |cuts| ==> 0 <= cuts[i] <= |calls|
    requires forall i :: 0 <= i < |cuts| - 1 ==> cuts[i] < cuts[i + 1]
  {
    && |cuts| == |requests| + 1
    && forall i :: 0 <= i < |requests| ==>
         requests[i] == Request(using, calls[cuts[i]..cuts[i + 1]],
                                CarriedIds(if i == 0 then createdIds else None))
  }

  /** The error names a run of calls that must travel together and is longer than the limit. */
  ghost predicate NamesStuckRun(calls: seq<QueuedCall>, limit: int, error: PlanError) {
    exists start, span {:trigger calls[start..span]} ::
      0 <= start < span <= |calls| && span - start > limit
      && LegalCut(calls, start) && LegalCut(calls, span) && NoCutIn(calls, start, span - 1)
      && error == BatchTooLarge(Ids(calls[start..span]), limit)
  }

  lemma {:induction false} StaysAhead(
    calls: seq<QueuedCall>, limit: int, cuts: seq<int>, end: int, other: seq<int>, i: nat)
    requires IsSplitTo(calls, limit, cuts, end) && Greedy(calls, limit, cuts)
    requires IsSplit(calls, limit, other)
    requires i < |cuts| && i < |other|
    ensures other[i] <= cuts[i]
  {
    if i > 0 {
      StaysAhead(calls, limit, cuts, end, other, i - 1);
      assert NoCutIn(calls, cuts[i - 1 + 1], cuts[i - 1] + limit);
      assert other[i - 1 + 1] <= other[i - 1] + limit;
    }
  }

  lemma {:induction false} CutsBelowLast(calls: seq<QueuedCall>, limit: int, cuts: seq<int>, end: int, i: nat)
    requires IsSplitTo(calls, limit, cuts, end)
    requires i < |cuts| - 1
    ensures cuts[i] < end
    decreases |cuts| - i
  {
    assert cuts[i] < cuts[i + 1];
    if i + 1 < |cuts| - 1 { CutsBelowLast(calls, limit, cuts, end, i + 1); }
  }

  lemma GreedyIsShortest(calls: seq<QueuedCall>, limit: int, cuts: seq<int>, other: seq<int>)
    requires IsSplit(calls, limit, cuts) && Greedy(calls, limit, cuts)
    requires IsSplit(calls, limit, other)
    ensures |cuts| <= |other|
  {
    if |other| < |cuts| {
      StaysAhead(calls, limit, cuts, |calls|, other, |other| - 1);
      CutsBelowLast(calls, limit, cuts, |calls|, |other| - 1);
    }
  }

  /** A split steps over every position below the end, so it cuts within `limit` after each. */
  lemma {:induction false} SplitCutsSoonAfter(
    calls: seq<QueuedCall>, limit: int, cuts: seq<int>, start: int, i: nat)
    requires IsSplit(calls, limit, cuts)
    requires i < |cuts| && cuts[i] <= start < |calls|
    ensures !NoCutIn(calls, start, start + limit)
    decreases |cuts| - i
  {
    assert i < |cuts| - 1;
    if cuts[i + 1] <= start { SplitCutsSoonAfter(calls, limit, cuts, start, i + 1); }
  }

  /** The latest place a request starting at `start` may end; `start` itself when there is none. */
  method LatestEnd(calls: seq<QueuedCall>, legal: seq<bool>, start: nat, limit: int) returns (end: int)
    requires limit >= 1 && start < |calls|
    requires |legal| == |calls| + 1
    requires forall i :: 0 <= i <= |calls| ==> (legal[i] <==> LegalCut(calls, i))
    ensures start <= end <= |calls| && end <= start + limit
    ensures end > start ==> LegalCut(calls, end)
    ensures NoCutIn(calls, end, start + limit)
  {
    end := if start + limit < |calls| then start + limit else |calls|;
    while end > start && !legal[end]
      invariant start <= end <= |calls| && end <= start + limit
      invariant NoCutIn(calls, end, start + limit)
    {
      end := end - 1;
    }
  }

  /** The stretch from `start` up to the next legal cut, when none is within the limit. */
  method StuckRun(calls: seq<QueuedCall>, legal: seq<bool>, start: nat, limit: int) returns (error: PlanError)
    requires start < |calls| && LegalCut(calls, start)
    requires |legal| == |calls| + 1
    requires forall i :: 0 <= i <= |calls| ==> (legal[i] <==> LegalCut(calls, i))
    requires NoCutIn(calls, start, start + limit)
    ensures NamesStuckRun(calls, limit, error)
  {
    EndIsLegal(calls);
    var span := start + 1;
    while !legal[span]
      invariant start < span <= |calls|
      invariant NoCutIn(calls, start, span - 1)
      decreases |calls| - span
    {
      span := span + 1;
    }
    error := BatchTooLarge(Ids(calls[start..span]), limit);
    assert LegalCut(calls, span);
    assert calls[start..span] == calls[start..span];
  }

  /** Cuts greedily: the legal position farthest within the limit ends a request and starts the next. */
  method CutRequests(
    calls: seq<QueuedCall>, using: set<string>, limit: int, createdIds: Option<map<string, string>>)
    returns (result: Result<seq<Request>, PlanError>, ghost cuts: seq<int>)
    requires limit >= 1 && calls != [] && ReferencesValid(calls)
    ensures result.Success? ==>
              IsSplit(calls, limit, cuts) && Greedy(calls, limit, cuts)
              && CutInto(calls, cuts, result.value, using, createdIds)
    ensures result.Failure? ==>
              NamesStuckRun(calls, limit, result.error) && forall other :: !IsSplit(calls, limit, other)
  {
    var legal := CutPoints(calls);
    var requests: seq<Request> := [];
    var start := 0;
    cuts := [0];
    StartIsLegal(calls);
    while start < |calls|
      invariant IsSplitTo(calls, limit, cuts, start)
      invariant Greedy(calls, limit, cuts)
      invariant CutInto(calls, cuts, requests, using, createdIds)
      decreases |calls| - start
    {
      var end := LatestEnd(calls, legal, start, limit);
      if end == start {
        forall other ensures !IsSplit(calls, limit, other) {
          if IsSplit(calls, limit, other) { SplitCutsSoonAfter(calls, limit, other, start, 0); }
        }
        var stuck := StuckRun(calls, legal, start, limit);
        return Failure(stuck), cuts;
      }
      SplitGrows(calls, limit, cuts, start, end);
      var carried := CarriedIds(if requests == [] then createdIds else None);
      requests := requests + [Request(using, calls[start..end], carried)];
      cuts := cuts + [end];
      start := end;
    }
    return Success(requests), cuts;
  }

  lemma SplitGrows(calls: seq<QueuedCall>, limit: int, cuts: seq<int>, start: int, end: int)
    requires IsSplitTo(calls, limit, cuts, start) && Greedy(calls, limit, cuts)
    requires start < end <= |calls| && end <= start + limit && LegalCut(calls, end)
    requires NoCutIn(calls, end, start + limit)
    ensures IsSplitTo(calls, limit, cuts + [end], end) && Greedy(calls, limit, cuts + [end])
  {
    var longer := cuts + [end];
    forall i | 0 <= i < |longer| - 1
      ensures longer[i] < longer[i + 1] <= longer[i] + limit && NoCutIn(calls, longer[i + 1], longer[i] + limit)
    {
      assert longer[i] == cuts[i];
      if i + 1 < |cuts| {
        assert longer[i + 1] == cuts[i + 1];
        assert NoCutIn(calls, cuts[i + 1], cuts[i] + limit);
      }
    }
  }

  method PlanRequests(
    calls: seq<QueuedCall>, using: set<string>, limit: int, createdIds: Option<map<string, string>>)
    returns (result: Result<seq<Request>, PlanError>, ghost cuts: seq<int>)
    ensures limit < 1 ==> result == Failure(BadLimit(limit))
    ensures limit >= 1 && !ReferencesValid(calls) ==>
              result.Failure? && FirstBadReference(calls, result.error)
    ensures limit >= 1 && ReferencesValid(calls) ==>
              (result.Success? <==> exists other :: IsSplit(calls, limit, other))
    ensures limit >= 1 && ReferencesValid(calls) && result.Failure? ==>
              NamesStuckRun(calls, limit, result.error)
    ensures result.Success? ==>
              IsSplit(calls, limit, cuts) && Greedy(calls, limit, cuts)
              && CutInto(calls, cuts, result.value, using, createdIds)
    ensures result.Success? ==>
              forall other :: IsSplit(calls, limit, other) ==> |result.value| <= |other| - 1
  {
    cuts := [0];
    if limit < 1 { return Failure(BadLimit(limit)), cuts; }
    if calls == [] {
      assert IsSplit(calls, limit, cuts);
      return Success([]), cuts;
    }
    var checked := ValidateReferences(calls);
    if checked.Fail? { return Failure(checked.error), cuts; }
    result, cuts := CutRequests(calls, using, limit, createdIds);
    if result.Success? {
      forall other | IsSplit(calls, limit, other) ensures |cuts| <= |other| {
        GreedyIsShortest(calls, limit, cuts, other);
      }
    }
  }

  lemma StartIsLegal(calls: seq<QueuedCall>)
    requires ReferencesValid(calls)
    ensures LegalCut(calls, 0)
  {
    forall j, k | 0 <= j < |calls| && 0 <= k < |RefsOf(calls[j])|
      ensures Target(calls, RefsOf(calls[j])[k]) >= 0
    {
      var id := RefsOf(calls[j])[k].ref.resultOf;
      assert Resolvable(calls[..j], RefsOf(calls[j])[k].ref);
      assert calls[LastIndexOf(calls[..j], id)].id == id;
    }
  }

  lemma EndIsLegal(calls: seq<QueuedCall>)
    ensures LegalCut(calls, |calls|)
  {}

  // ---------------------------------------------------------------------------
  // What a legal cut means
  // ---------------------------------------------------------------------------

  /** A reference of call j and the call it names both lie on one side of the cut. */
  ghost predicate SameSide(calls: seq<QueuedCall>, cut: int, j: int, ref: NamedRef) {
    forall t :: 0 <= t < |calls| && calls[t].id == ref.ref.resultOf ==> (t < cut <==> j < cut)
  }

  /**
   * With unique call ids, as a batch allocates them, a cut is legal exactly when it
   * separates no reference from the call it names.
   */
  lemma LegalCutKeepsReferences(calls: seq<QueuedCall>, cut: int)
    requires UniqueIds(calls) && ReferencesValid(calls)
    requires 0 <= cut <= |calls|
    ensures LegalCut(calls, cut) <==>
            forall j, k {:trigger RefsOf(calls[j])[k]} :: 0 <= j < |calls| && 0 <= k < |RefsOf(calls[j])| ==>
              SameSide(calls, cut, j, RefsOf(calls[j])[k])
  {
    forall j, k | 0 <= j < |calls| && 0 <= k < |RefsOf(calls[j])|
      ensures 0 <= Target(calls, RefsOf(calls[j])[k]) < j
      ensures SameSide(calls, cut, j, RefsOf(calls[j])[k]) <==>
              (cut <= j ==> cut <= Target(calls, RefsOf(calls[j])[k]))
    {
      var ref := RefsOf(calls[j])[k];
      assert Resolvable(calls[..j], ref.ref);
      var t := LastIndexOf(calls[..j], ref.ref.resultOf);
      assert calls[t].id == ref.ref.resultOf;
      assert Target(calls, ref) == t;
    }
  }
}
