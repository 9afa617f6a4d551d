/**
 * What a sparse view is for: wherever it knows an id, the server's list has that id there.
 * And what it may leave out: the nulls past the last known position (src/jmap/sync/query.py).
 */
module ViewAgreement {
  import opened Wrappers
  import opened QueryViews

  // ---------------------------------------------------------------------------
  // Not storing the tail
  // ---------------------------------------------------------------------------

  lemma {:induction false} SurvivorsOfTail(ids: Sparse, tail: nat, removed: set<string>)
    ensures Survivors(ids + Nulls(tail), removed) == Survivors(ids, removed) + Nulls(tail)
    decreases tail
  {
    if tail == 0 {
      assert ids + Nulls(0) == ids;
    } else {
      var longer := ids + Nulls(tail);
      assert longer[..|longer| - 1] == ids + Nulls(tail - 1);
      SurvivorsOfTail(ids, tail - 1, removed);
      assert Nulls(tail) == Nulls(tail - 1) + [None];
    }
  }

  /** Nulls after the survivors come out as nulls after the result; some may be used as padding. */
  lemma {:induction false} MergeOfTail(result: Sparse, rest: Sparse, items: seq<AddedItem>, tail: nat)
    returns (left: nat)
    ensures MergePass(result, rest + Nulls(tail), items) == MergePass(result, rest, items) + Nulls(left)
    decreases |items|
  {
    if items == [] {
      assert result + (rest + Nulls(tail)) == (result + rest) + Nulls(tail);
      left := tail;
    } else {
      var item := items[0];
      var take := item.index - |result|;
      var (grown, remaining) := Placed(result, rest, item);
      var used := if take <= |rest| then 0 else if take - |rest| <= tail then take - |rest| else tail;
      var (grown', remaining') := Placed(result, rest + Nulls(tail), item);
      assert grown' == grown;
      assert remaining' == remaining + Nulls(tail - used);
      left := MergeOfTail(grown, remaining, items[1..], tail - used);
    }
  }

  lemma FitOfTail(ids: Sparse, left: nat, total: nat)
    ensures Fit(ids + Nulls(left), Some(total)) == Fit(Cut(ids, Some(total)), Some(total))
  {
    assert |Fit(ids + Nulls(left), Some(total))| == total;
  }

  /**
   * Whatever run of nulls the stored list leaves out, applying a delta to it and padding to
   * the new total is splicing the whole list with that total.
   */
  lemma ImpliedTailLosesNothing(view: ViewState, tail: nat, changes: QueryChanges, after: ViewState)
    requires Applied(view, changes) == Success(after) && changes.total.Some?
    ensures Fit(after.ids, changes.total)
         == Fit(Spliced(view.ids + Nulls(tail), Removed(changes), changes.added), changes.total)
  {
    var removed, order := Removed(changes), SortByIndex(changes.added);
    SurvivorsOfTail(view.ids, tail, removed);
    var left := MergeOfTail([], Survivors(view.ids, removed), order, tail);
    var short := Spliced(view.ids, removed, changes.added);
    assert Spliced(view.ids + Nulls(tail), removed, changes.added) == short + Nulls(left);
    FitOfTail(short, left, changes.total.value);
  }

  // ---------------------------------------------------------------------------
  // Agreement with the server's list
  // ---------------------------------------------------------------------------

  ghost predicate Agrees(view: Sparse, list: seq<string>) {
    forall i :: 0 <= i < |view| && view[i].Some? ==> i < |list| && list[i] == view[i].value
  }

  /** The ids of a list that are not removed, in order. */
  function Kept(list: seq<string>, removed: set<string>): seq<string> {
    if list == [] then []
    else
      var last := list[|list| - 1];
      Kept(list[..|list| - 1], removed) + (if last in removed then [] else [last])
  }

  function Indices(added: seq<AddedItem>): set<int> {
    set k | 0 <= k < |added| :: added[k].index
  }

  /** The ids of a list from `from` on, leaving out the given positions. */
  function Unlisted(list: seq<string>, positions: set<int>, from: nat): seq<string>
    decreases |list| - from
  {
    if from >= |list| then []
    else (if from in positions then [] else [list[from]]) + Unlisted(list, positions, from + 1)
  }

  /** The delta really takes `before` to `after`: each added id is where it says, the rest is what was kept. */
  ghost predicate Describes(before: seq<string>, removed: set<string>, added: seq<AddedItem>, after: seq<string>) {
    && DistinctIndices(added)
    && (forall k :: 0 <= k < |added| ==>
          0 <= added[k].index < |after| && after[added[k].index] == added[k].id)
    && Unlisted(after, Indices(added), 0) == Kept(before, removed)
  }

  /** A removed id the list holds at a position the view knows only as a null. */
  ghost predicate Hidden(view: Sparse, list: seq<string>, removed: set<string>, p: int) {
    0 <= p < |view| && p < |list| && view[p].None? && list[p] in removed
  }

  /** A position whose id the view knows and keeps. */
  ghost predicate KnownSurvivor(view: Sparse, removed: set<string>, q: int) {
    0 <= q < |view| && view[q].Some? && view[q].value !in removed
  }

  ghost predicate NoneHiddenBefore(view: Sparse, list: seq<string>, removed: set<string>) {
    forall p, q :: Hidden(view, list, removed, p) && KnownSurvivor(view, removed, q) ==> q <= p
  }

  // --- removing ---------------------------------------------------------------

  lemma {:induction false} SurvivorsConcat(a: Sparse, b: Sparse, removed: set<string>)
    ensures Survivors(a + b, removed) == Survivors(a, removed) + Survivors(b, removed)
    decreases |b|
  {
    if b == [] {
      assert a + b == a;
    } else {
      assert (a + b)[..|a + b| - 1] == a + b[..|b| - 1];
      SurvivorsConcat(a, b[..|b| - 1], removed);
    }
  }

  lemma {:induction false} KeptConcat(a: seq<string>, b: seq<string>, removed: set<string>)
    ensures Kept(a + b, removed) == Kept(a, removed) + Kept(b, removed)
    decreases |b|
  {
    if b == [] {
      assert a + b == a;
    } else {
      assert (a + b)[..|a + b| - 1] == a + b[..|b| - 1];
      KeptConcat(a, b[..|b| - 1], removed);
    }
  }

  function HiddenCount(view: Sparse, list: seq<string>, removed: set<string>, n: nat): nat
    requires n <= |view| && n <= |list|
  {
    if n == 0 then 0
    else HiddenCount(view, list, removed, n - 1) + (if view[n - 1].None? && list[n - 1] in removed then 1 else 0)
  }

  /** Every hidden removal leaves the survivors one position too long. */
  lemma {:induction false} SurvivorsRunLong(view: Sparse, list: seq<string>, removed: set<string>, n: nat)
    requires Agrees(view, list) && n <= |view| && n <= |list|
    ensures |Survivors(view[..n], removed)| == |Kept(list[..n], removed)| + HiddenCount(view, list, removed, n)
    ensures HiddenCount(view, list, removed, n) == 0 ==> Agrees(Survivors(view[..n], removed), Kept(list[..n], removed))
  {
    if n > 0 {
      SurvivorsRunLong(view, list, removed, n - 1);
      assert view[..n][..n - 1] == view[..n - 1] && list[..n][..n - 1] == list[..n - 1];
    }
  }

  lemma {:induction false} NothingKnownSurvives(view: Sparse, removed: set<string>)
    requires forall q :: !KnownSurvivor(view, removed, q)
    ensures forall i :: 0 <= i < |Survivors(view, removed)| ==> Survivors(view, removed)[i].None?
  {
    if view != [] {
      var init := view[..|view| - 1];
      assert !KnownSurvivor(view, removed, |view| - 1);
      forall q ensures !KnownSurvivor(init, removed, q) { assert !KnownSurvivor(view, removed, q); }
      NothingKnownSurvives(init, removed);
    }
  }

  lemma {:induction false} NoneHiddenCountsZero(view: Sparse, list: seq<string>, removed: set<string>, n: nat)
    requires n <= |view| && n <= |list|
    ensures HiddenCount(view, list, removed, n) == 0 <==> forall p :: 0 <= p < n ==> !Hidden(view, list, removed, p)
  {
    if n > 0 {
      NoneHiddenCountsZero(view, list, removed, n - 1);
      assert Hidden(view, list, removed, n - 1) <==> view[n - 1].None? && list[n - 1] in removed;
    }
  }

  /** One past the last position whose id the view knows and keeps. */
  lemma {:induction false} LastKnown(view: Sparse, removed: set<string>) returns (end: nat)
    ensures end <= |view|
    ensures end > 0 ==> KnownSurvivor(view, removed, end - 1)
    ensures forall q :: end <= q ==> !KnownSurvivor(view, removed, q)
    decreases |view|
  {
    if view == [] {
      end := 0;
    } else if KnownSurvivor(view, removed, |view| - 1) {
      end := |view|;
    } else {
      var init := view[..|view| - 1];
      end := LastKnown(init, removed);
      forall q | end <= q ensures !KnownSurvivor(view, removed, q) { assert !KnownSurvivor(init, removed, q); }
      if end > 0 { assert KnownSurvivor(view, removed, end - 1); }
    }
  }

  lemma RemovalAgrees(view: Sparse, list: seq<string>, removed: set<string>)
    requires Agrees(view, list) && NoneHiddenBefore(view, list, removed)
    ensures Agrees(Survivors(view, removed), Kept(list, removed))
  {
    var end := LastKnown(view, removed);
    if end > 0 {
      assert KnownSurvivor(view, removed, end - 1);
      forall p | 0 <= p < end ensures !Hidden(view, list, removed, p) {
        assert p == end - 1 ==> view[p].Some?;
      }
    }
    assert end <= |list|;
    NoneHiddenCountsZero(view, list, removed, end);
    SurvivorsRunLong(view, list, removed, end);
    var rest := view[end..];
    forall q ensures !KnownSurvivor(rest, removed, q) {
      if 0 <= q { assert !KnownSurvivor(view, removed, end + q); }
    }
    NothingKnownSurvives(rest, removed);
    assert view == view[..end] + rest && list == list[..end] + list[end..];
    SurvivorsConcat(view[..end], rest, removed);
    KeptConcat(list[..end], list[end..], removed);
  }

  // --- inserting --------------------------------------------------------------

  /** What is left of `list` from `from` on once the items' positions are taken out. */
  function Others(list: seq<string>, from: nat, items: seq<AddedItem>): seq<string>
    requires forall k :: 0 <= k < |items| ==> items[k].index < |list|
    requires Ascends(items, from) && from <= |list|
    decreases |items|
  {
    if items == [] then list[from..]
    else list[from..items[0].index] + Others(list, items[0].index + 1, items[1..])
  }

  predicate Ascends(items: seq<AddedItem>, from: nat)
    decreases |items|
  {
    items == [] || (from <= items[0].index && Ascends(items[1..], items[0].index + 1))
  }

  lemma {:induction false} AscendingAscends(items: seq<AddedItem>, from: nat)
    requires Ascending(items) && (items != [] ==> from <= items[0].index)
    ensures Ascends(items, from)
    ensures forall k :: 0 <= k < |items| ==> from <= items[k].index
    decreases |items|
  {
    if items != [] {
      if |items| > 1 { assert items[0].index < items[1].index && items[1..][0] == items[1]; }
      AscendingAscends(items[1..], items[0].index + 1);
      assert forall k :: 1 <= k < |items| ==> items[k] == items[1..][k - 1];
    }
  }

  lemma LaterIndices(items: seq<AddedItem>, from: nat, positions: set<int>)
    requires items != [] && items[0].index == from
    requires forall p :: from <= p ==> (p in positions <==> p in Indices(items))
    ensures forall p :: from + 1 <= p ==> (p in positions <==> p in Indices(items[1..]))
  {
    forall p | from + 1 <= p ensures p in positions <==> p in Indices(items[1..]) { SplitIndices(items, p); }
  }

  lemma {:induction false} NoneListed(list: seq<string>, positions: set<int>, from: nat)
    requires from <= |list| && forall p :: from <= p ==> p !in positions
    ensures Unlisted(list, positions, from) == list[from..]
    decreases |list| - from
  {
    if from < |list| {
      NoneListed(list, positions, from + 1);
      assert list[from..] == [list[from]] + list[from + 1..];
    }
  }

  /** A position no item takes is the next of the others. */
  lemma OthersStep(list: seq<string>, from: nat, items: seq<AddedItem>)
    requires forall k :: 0 <= k < |items| ==> items[k].index < |list|
    requires Ascends(items, from) && items != [] && from < items[0].index
    ensures Others(list, from, items) == [list[from]] + Others(list, from + 1, items)
  {
    var between, tail := list[from + 1..items[0].index], Others(list, items[0].index + 1, items[1..]);
    assert list[from..items[0].index] == [list[from]] + between;
    assert ([list[from]] + between) + tail == [list[from]] + (between + tail);
  }

  lemma OthersSkip(list: seq<string>, from: nat, items: seq<AddedItem>)
    requires forall k :: 0 <= k < |items| ==> items[k].index < |list|
    requires Ascends(items, from) && items != [] && from == items[0].index
    ensures Others(list, from, items) == Others(list, from + 1, items[1..])
  {
    assert list[from..from] == [];
  }

  lemma {:induction false} OthersIsUnlisted(list: seq<string>, from: nat, items: seq<AddedItem>, positions: set<int>)
    requires forall k :: 0 <= k < |items| ==> items[k].index < |list|
    requires Ascends(items, from) && from <= |list|
    requires forall p :: from <= p ==> (p in positions <==> p in Indices(items))
    ensures Others(list, from, items) == Unlisted(list, positions, from)
    decreases |list| - from, |items|
  {
    if items == [] {
      NoneListed(list, positions, from);
    } else if items[0].index == from {
      assert from in Indices(items);
      LaterIndices(items, from, positions);
      OthersIsUnlisted(list, from + 1, items[1..], positions);
      OthersSkip(list, from, items);
    } else {
      AscendsBounds(items, from);
      assert from !in Indices(items);
      OthersIsUnlisted(list, from + 1, items, positions);
      OthersStep(list, from, items);
    }
  }

  lemma {:induction false} AscendsBounds(items: seq<AddedItem>, from: nat)
    requires Ascends(items, from)
    ensures forall k :: 0 <= k < |items| ==> from <= items[k].index
    ensures forall k :: 1 <= k < |items| ==> items[0].index < items[k].index
    decreases |items|
  {
    if items != [] {
      AscendsBounds(items[1..], items[0].index + 1);
      assert forall k :: 1 <= k < |items| ==> items[k] == items[1..][k - 1];
    }
  }

  lemma SplitIndices(items: seq<AddedItem>, p: int)
    requires items != []
    ensures p in Indices(items) <==> p == items[0].index || p in Indices(items[1..])
  {
    if p in Indices(items) && p != items[0].index {
      var k :| 0 <= k < |items| && items[k].index == p;
      assert items[1..][k - 1].index == p;
    }
    if p in Indices(items[1..]) {
      var k :| 0 <= k < |items| - 1 && items[1..][k].index == p;
      assert items[k + 1].index == p;
    }
  }

  lemma {:induction false} MergeAgrees(result: Sparse, rest: Sparse, items: seq<AddedItem>, list: seq<string>)
    requires forall k :: 0 <= k < |items| ==> items[k].index < |list|
    requires Ascends(items, |result|) && |result| <= |list|
    requires forall k :: 0 <= k < |items| ==> items[k].index >= 0 && list[items[k].index] == items[k].id
    requires Agrees(result, list) && Agrees(rest, Others(list, |result|, items))
    ensures Agrees(MergePass(result, rest, items), list)
    decreases |items|
  {
    var others := Others(list, |result|, items);
    if items == [] {
      assert others == list[|result|..];
    } else {
      var item := items[0];
      var (longer, left) := Placed(result, rest, item);
      assert |longer| == item.index + 1;
      var take := item.index - |result|;
      forall i | 0 <= i < |longer| && longer[i].Some?
        ensures i < |list| && list[i] == longer[i].value
      {
        if |result| <= i < item.index {
          assert longer[i] == rest[i - |result|];
          assert others[i - |result|] == list[i];
        }
      }
      forall i | 0 <= i < |left| && left[i].Some?
        ensures i < |Others(list, |longer|, items[1..])| && Others(list, |longer|, items[1..])[i] == left[i].value
      {
        assert left[i] == rest[take + i];
        assert others[take + i] == Others(list, |longer|, items[1..])[i];
      }
      MergeAgrees(longer, left, items[1..], list);
    }
  }

  lemma DescribedOrder(before: seq<string>, removed: set<string>, added: seq<AddedItem>, after: seq<string>)
    returns (order: seq<AddedItem>)
    requires Describes(before, removed, added, after)
    ensures order == SortByIndex(added)
    ensures Ascends(order, 0)
    ensures forall k :: 0 <= k < |order| ==> 0 <= order[k].index < |after| && after[order[k].index] == order[k].id
    ensures Others(after, 0, order) == Kept(before, removed)
  {
    order := SortByIndex(added);
    DistinctSortedAscends(order, added);
    forall k | 0 <= k < |order|
      ensures 0 <= order[k].index < |after| && after[order[k].index] == order[k].id
    {
      assert order[k] in multiset(added);
    }
    AscendingAscends(order, 0);
    forall p ensures p in Indices(added) <==> p in Indices(order) {
      SameIndices(added, order, p);
      SameIndices(order, added, p);
    }
    OthersIsUnlisted(after, 0, order, Indices(added));
  }

  lemma SameIndices(one: seq<AddedItem>, other: seq<AddedItem>, p: int)
    requires multiset(one) == multiset(other)
    ensures p in Indices(one) ==> p in Indices(other)
  {
    if p in Indices(one) {
      var k :| 0 <= k < |one| && one[k].index == p;
      assert one[k] in multiset(other);
    }
  }

  /** The merge of a described delta agrees with the new list, unless a hidden removal shifted it. */
  lemma SpliceAgrees(
    view: Sparse, before: seq<string>, removed: set<string>, added: seq<AddedItem>, after: seq<string>)
    requires Agrees(view, before) && Describes(before, removed, added, after)
    requires NoneHiddenBefore(view, before, removed)
    ensures Agrees(Spliced(view, removed, added), after)
  {
    var order := DescribedOrder(before, removed, added, after);
    RemovalAgrees(view, before, removed);
    MergeAgrees([], Survivors(view, removed), order, after);
  }

  /** One applied delta keeps agreement, the new total cutting the view or not. */
  lemma ApplyAgrees(view: ViewState, before: seq<string>, changes: QueryChanges, next: ViewState, after: seq<string>)
    requires Applied(view, changes) == Success(next)
    requires Agrees(view.ids, before) && Describes(before, Removed(changes), changes.added, after)
    requires NoneHiddenBefore(view.ids, before, Removed(changes))
    ensures Agrees(next.ids, after)
  {
    SpliceAgrees(view.ids, before, Removed(changes), changes.added, after);
  }

  /** A run of deltas: view k + 1 is view k with delta k applied, as the server went from list k to k + 1. */
  ghost predicate IsRun(views: seq<ViewState>, lists: seq<seq<string>>, deltas: seq<QueryChanges>) {
    && |views| == |lists| == |deltas| + 1
    && forall k :: 0 <= k < |deltas| ==>
         && Applied(views[k], deltas[k]) == Success(views[k + 1])
         && Describes(lists[k], Removed(deltas[k]), deltas[k].added, lists[k + 1])
         && NoneHiddenBefore(views[k].ids, lists[k], Removed(deltas[k]))
  }

  lemma {:induction false} RunAgrees(
    views: seq<ViewState>, lists: seq<seq<string>>, deltas: seq<QueryChanges>, k: nat)
    requires IsRun(views, lists, deltas) && Agrees(views[0].ids, lists[0]) && k < |views|
    ensures Agrees(views[k].ids, lists[k])
  {
    if k > 0 {
      RunAgrees(views, lists, deltas, k - 1);
      assert Applied(views[k - 1], deltas[k - 1]) == Success(views[k - 1 + 1]);
      ApplyAgrees(views[k - 1], lists[k - 1], deltas[k - 1], views[k], lists[k]);
    }
  }

  /** A fresh view agrees with the list it was a window of. */
  lemma QueryAgrees(response: QueryResponse, view: ViewState, list: seq<string>)
    requires FromQuery(response) == Success(view)
    requires response.position + |response.ids| <= |list|
    requires response.ids == list[response.position..response.position + |response.ids|]
    ensures Agrees(view.ids, list)
  {
    forall i | 0 <= i < |view.ids| && view.ids[i].Some? ensures list[i] == view.ids[i].value {
      assert view.ids[i] == Some(response.ids[i - response.position]);
    }
  }

  // ---------------------------------------------------------------------------
  // The condition is exact
  // ---------------------------------------------------------------------------

  /** Where the merge puts survivor `s`, the items still to place starting at `from`. */
  function Place(items: seq<AddedItem>, from: nat, s: nat): (p: nat)
    requires Ascends(items, from)
    ensures p >= from + s
    decreases |items|
  {
    if items == [] || from + s < items[0].index then from + s
    else Place(items[1..], items[0].index + 1, s - (items[0].index - from))
  }

  lemma {:induction false} PlaceMonotone(items: seq<AddedItem>, from: nat, s: nat, t: nat)
    requires Ascends(items, from) && s < t
    ensures Place(items, from, s) < Place(items, from, t)
    decreases |items|
  {
    if items != [] && from + s >= items[0].index {
      var used := items[0].index - from;
      PlaceMonotone(items[1..], items[0].index + 1, s - used, t - used);
    }
  }

  lemma {:induction false} MergePlaces(result: Sparse, rest: Sparse, items: seq<AddedItem>, s: nat)
    requires Ascends(items, |result|) && s < |rest|
    ensures
      var p := Place(items, |result|, s);
      p < |MergePass(result, rest, items)| && MergePass(result, rest, items)[p] == rest[s]
    decreases |items|
  {
    if items != [] {
      var (longer, left) := Placed(result, rest, items[0]);
      var take := items[0].index - |result|;
      if s < take {
        MergeKeeps(longer, left, items[1..], |result| + s);
      } else {
        assert left[s - take] == rest[s];
        MergePlaces(longer, left, items[1..], s - take);
      }
    }
  }

  lemma {:induction false} MergeKeeps(result: Sparse, rest: Sparse, items: seq<AddedItem>, i: nat)
    requires Ascends(items, |result|) && i < |result|
    ensures i < |MergePass(result, rest, items)| && MergePass(result, rest, items)[i] == result[i]
    decreases |items|
  {
    if items != [] {
      var (longer, left) := Placed(result, rest, items[0]);
      MergeKeeps(longer, left, items[1..], i);
    }
  }

  lemma {:induction false} OthersPlaced(list: seq<string>, from: nat, items: seq<AddedItem>, s: nat)
    requires forall k :: 0 <= k < |items| ==> items[k].index < |list|
    requires Ascends(items, from) && from <= |list| && s < |Others(list, from, items)|
    ensures
      var p := Place(items, from, s);
      p < |list| && list[p] == Others(list, from, items)[s]
    decreases |items|
  {
    if items != [] && from + s >= items[0].index {
      OthersPlaced(list, items[0].index + 1, items[1..], s - (items[0].index - from));
    }
  }

  /**
   * Before any cut to a total, agreement survives a described delta exactly when no removed
   * id hides in a null slot before an id the view knows and keeps.
   */
  lemma AgreementExactly(
    view: Sparse, before: seq<string>, removed: set<string>, added: seq<AddedItem>, after: seq<string>)
    requires Agrees(view, before) && Describes(before, removed, added, after)
    requires forall i, j :: 0 <= i < j < |after| ==> after[i] != after[j]
    ensures Agrees(Spliced(view, removed, added), after) <==> NoneHiddenBefore(view, before, removed)
  {
    if NoneHiddenBefore(view, before, removed) {
      SpliceAgrees(view, before, removed, added, after);
    } else {
      var p, q :| Hidden(view, before, removed, p) && KnownSurvivor(view, removed, q) && p < q;
      assert q < |before|;
      var order := DescribedOrder(before, removed, added, after);
      NoneHiddenCountsZero(view, before, removed, q);
      SurvivorsRunLong(view, before, removed, q);
      var s, t := |Survivors(view[..q], removed)|, |Kept(before[..q], removed)|;
      KnownAt(view, removed, q);
      KeptAt(before, removed, q);
      MergePlaces([], Survivors(view, removed), order, s);
      OthersPlaced(after, 0, order, t);
      PlaceMonotone(order, 0, t, s);
    }
  }

  lemma KnownAt(view: Sparse, removed: set<string>, q: nat)
    requires KnownSurvivor(view, removed, q)
    ensures
      var s := |Survivors(view[..q], removed)|;
      s < |Survivors(view, removed)| && Survivors(view, removed)[s] == view[q]
  {
    assert view == view[..q + 1] + view[q + 1..] && view[..q + 1][..q] == view[..q];
    SurvivorsConcat(view[..q + 1], view[q + 1..], removed);
  }

  lemma KeptAt(list: seq<string>, removed: set<string>, q: nat)
    requires q < |list| && list[q] !in removed
    ensures
      var t := |Kept(list[..q], removed)|;
      t < |Kept(list, removed)| && Kept(list, removed)[t] == list[q]
  {
    assert list == list[..q + 1] + list[q + 1..] && list[..q + 1][..q] == list[..q];
    KeptConcat(list[..q + 1], list[q + 1..], removed);
  }
}
