/** Keeping a sparse query result up to date (src/jmap/sync/query.py, section 5.6 of RFC 8620). */
module QueryViews {
  import opened Wrappers
  import opened Sequences

  // None marks a position known to exist but never fetched.
  type Sparse = seq<Option<string>>

  datatype AddedItem = AddedItem(index: int, id: string)

  datatype Field = AddedIndex | Total | Position

  datatype ViewError =
    | ViewTooLarge(what: Field, value: int)
    | StaleQueryView(expected: string, received: string)
    | UncacheableQuery

  const MAX_VIEW_LENGTH := 1_000_000

  predicate InBounds(value: int) {
    0 <= value <= MAX_VIEW_LENGTH
  }

  function Nulls(n: nat): Sparse {
    seq(n, _ => None)
  }

  // ---------------------------------------------------------------------------
  // The algorithm of section 5.6 of RFC 8620
  // ---------------------------------------------------------------------------

  /** The list without the removed ids it holds. */
  function Survivors(ids: Sparse, removed: set<string>): Sparse {
    if ids == [] then []
    else
      var last := ids[|ids| - 1];
      Survivors(ids[..|ids| - 1], removed) + (if last.Some? && last.value in removed then [] else [last])
  }

  /** One insertion; a list too short for the index is first padded up to it. */
  function InsertAt(ids: Sparse, item: AddedItem): Sparse
    requires item.index >= 0
  {
    if item.index <= |ids| then ids[..item.index] + [Some(item.id)] + ids[item.index..]
    else ids + Nulls(item.index - |ids|) + [Some(item.id)]
  }

  function InsertAll(ids: Sparse, items: seq<AddedItem>): Sparse
    requires forall k :: 0 <= k < |items| ==> items[k].index >= 0
    decreases |items|
  {
    if items == [] then ids else InsertAll(InsertAt(ids, items[0]), items[1..])
  }

  /** Cut or pad to the new total, when one is reported. */
  function Fit(ids: Sparse, total: Option<int>): Sparse
    requires total.Some? ==> total.value >= 0
  {
    if total.None? then ids
    else if total.value < |ids| then ids[..total.value]
    else ids + Nulls(total.value - |ids|)
  }

  ghost predicate Sorted(items: seq<AddedItem>) {
    forall i, j :: 0 <= i < j < |items| ==> items[i].index <= items[j].index
  }

  ghost predicate Ascending(items: seq<AddedItem>) {
    forall i, j :: 0 <= i < j < |items| ==> items[i].index < items[j].index
  }

  ghost predicate DistinctIndices(items: seq<AddedItem>) {
    forall i, j :: 0 <= i < j < |items| ==> items[i].index != items[j].index
  }

  /** `order` lists the added items from the lowest index up. */
  ghost predicate LowestFirst(order: seq<AddedItem>, added: seq<AddedItem>) {
    Sorted(order) && multiset(order) == multiset(added)
  }

  // ---------------------------------------------------------------------------
  // The single merge pass
  // ---------------------------------------------------------------------------

  /** Inserts after every item of a lower or equal index, as a stable sort does. */
  function InsertSorted(items: seq<AddedItem>, item: AddedItem): (r: seq<AddedItem>)
    requires Sorted(items)
    ensures Sorted(r) && multiset(r) == multiset(items) + multiset{item}
    ensures forall k :: 0 <= k < |r| ==> r[k] == item || r[k] in items
  {
    if items == [] || items[|items| - 1].index <= item.index then items + [item]
    else
      var last := items[|items| - 1];
      var init := items[..|items| - 1];
      assert items == init + [last];
      SortedSnoc(InsertSorted(init, item), init, item, last);
      InsertSorted(init, item) + [last]
  }

  lemma SortedSnoc(r: seq<AddedItem>, init: seq<AddedItem>, item: AddedItem, last: AddedItem)
    requires Sorted(r) && Sorted(init + [last]) && item.index <= last.index
    requires forall k :: 0 <= k < |r| ==> r[k] == item || r[k] in init
    ensures Sorted(r + [last])
  {
    forall k | 0 <= k < |r| ensures r[k].index <= last.index {
      if r[k] != item {
        var i :| 0 <= i < |init| && init[i] == r[k];
        assert (init + [last])[i].index <= (init + [last])[|init|].index;
      }
    }
  }

  function SortByIndex(added: seq<AddedItem>): (order: seq<AddedItem>)
    ensures LowestFirst(order, added)
  {
    if added == [] then []
    else
      assert added == added[..|added| - 1] + [added[|added| - 1]];
      InsertSorted(SortByIndex(added[..|added| - 1]), added[|added| - 1])
  }

  /** `result` as it grows: survivors up to the index, nulls if they run out, then the item. */
  function Placed(result: Sparse, rest: Sparse, item: AddedItem): (Sparse, Sparse) {
    var take := item.index - |result|;
    if take <= 0 then (result + [Some(item.id)], rest)
    else
      var moved := if take <= |rest| then take else |rest|;
      (result + rest[..moved] + Nulls(take - moved) + [Some(item.id)], rest[moved..])
  }

  function MergePass(result: Sparse, rest: Sparse, items: seq<AddedItem>): Sparse
    decreases |items|
  {
    if items == [] then result + rest
    else
      var (longer, left) := Placed(result, rest, items[0]);
      MergePass(longer, left, items[1..])
  }

  /** The error of the first value out of bounds, in the order they are checked. */
  function SpliceError(added: seq<AddedItem>, total: Option<int>): Option<ViewError> {
    if added == [] then
      if total.Some? && !InBounds(total.value) then Some(ViewTooLarge(Total, total.value)) else None
    else if !InBounds(added[0].index) then Some(ViewTooLarge(AddedIndex, added[0].index))
    else SpliceError(added[1..], total)
  }

  lemma {:induction false} NoErrorInBounds(added: seq<AddedItem>, total: Option<int>)
    ensures SpliceError(added, total).None? <==>
            (forall k :: 0 <= k < |added| ==> InBounds(added[k].index)) && (total.Some? ==> InBounds(total.value))
  {
    if added != [] {
      NoErrorInBounds(added[1..], total);
      assert forall k :: 1 <= k < |added| ==> added[k] == added[1..][k - 1];
    }
  }

  function Spliced(ids: Sparse, removed: set<string>, added: seq<AddedItem>): Sparse {
    MergePass([], Survivors(ids, removed), SortByIndex(added))
  }

  method DropRemoved(ids: Sparse, removed: set<string>) returns (survivors: Sparse)
    ensures survivors == Survivors(ids, removed)
  {
    survivors := [];
    for i := 0 to |ids|
      invariant survivors == Survivors(ids[..i], removed)
    {
      assert ids[..i + 1][..i] == ids[..i];
      if ids[i].None? || ids[i].value !in removed { survivors := survivors + [ids[i]]; }
    }
    assert ids[..|ids|] == ids;
  }

  method Merge(survivors: Sparse, additions: seq<AddedItem>) returns (result: Sparse)
    ensures result == MergePass([], survivors, additions)
  {
    result := [];
    var consumed := 0;
    assert additions[0..] == additions && survivors[0..] == survivors;
    for k := 0 to |additions|
      invariant 0 <= consumed <= |survivors|
      invariant MergePass(result, survivors[consumed..], additions[k..]) == MergePass([], survivors, additions)
    {
      ghost var was, left := result, survivors[consumed..];
      var item := additions[k];
      var take := item.index - |result|;
      if take > 0 {
        var stop := if consumed + take <= |survivors| then consumed + take else |survivors|;
        ghost var moved := stop - consumed;
        assert survivors[consumed..stop] == left[..moved] && survivors[stop..] == left[moved..];
        result := result + survivors[consumed..stop];
        consumed := stop;
      }
      if item.index > |result| { result := result + Nulls(item.index - |result|); }
      result := result + [Some(item.id)];
      assert additions[k..][0] == item && additions[k..][1..] == additions[k + 1..];
      assert result == Placed(was, left, item).0;
    }
    result := result + survivors[consumed..];
  }

  method Splice(ids: Sparse, removed: set<string>, added: seq<AddedItem>, total: Option<int>)
    returns (spliced: Result<Sparse, ViewError>)
    ensures spliced.Failure? <==> SpliceError(added, total).Some?
    ensures spliced.Failure? ==> spliced.error == SpliceError(added, total).value
    ensures spliced.Success? ==>
      (total.Some? ==> InBounds(total.value)) && spliced.value == Fit(Spliced(ids, removed, added), total)
  {
    NoErrorInBounds(added, total);
    var survivors := DropRemoved(ids, removed);
    assert added[0..] == added;
    for i := 0 to |added|
      invariant SpliceError(added, total) == SpliceError(added[i..], total)
    {
      assert added[i..][1..] == added[i + 1..];
      if !InBounds(added[i].index) { return Failure(ViewTooLarge(AddedIndex, added[i].index)); }
    }
    var result := Merge(survivors, SortByIndex(added));
    if total.Some? {
      if !InBounds(total.value) { return Failure(ViewTooLarge(Total, total.value)); }
      if total.value < |result| {
        result := result[..total.value];
      } else {
        result := result + Nulls(total.value - |result|);
      }
    }
    return Success(result);
  }

  // ---------------------------------------------------------------------------
  // The merge pass is the one-by-one algorithm
  // ---------------------------------------------------------------------------

  lemma {:induction false} MergeIsInsertAll(result: Sparse, rest: Sparse, items: seq<AddedItem>)
    requires Ascending(items)
    requires items != [] ==> |result| <= items[0].index
    ensures forall k :: 0 <= k < |items| ==> items[k].index >= 0
    ensures MergePass(result, rest, items) == InsertAll(result + rest, items)
    decreases |items|
  {
    if items != [] {
      var item := items[0];
      var (longer, left) := Placed(result, rest, item);
      MergeIsInsertAll(longer, left, items[1..]);
      assert forall k :: 1 <= k < |items| ==> items[k] == items[1..][k - 1];
      assert InsertAt(result + rest, item) == longer + left;
    }
  }

  lemma HighestLast(one: seq<AddedItem>, other: seq<AddedItem>)
    requires Ascending(one) && Sorted(other) && multiset(one) == multiset(other) && one != []
    ensures |one| == |other| && one[|one| - 1] == other[|other| - 1]
  {
    assert |one| == |multiset(one)| == |multiset(other)| == |other|;
    var n := |one| - 1;
    assert one[n] in multiset(other) && other[n] in multiset(one);
    var i :| 0 <= i <= n && other[i] == one[n];
    var j :| 0 <= j <= n && one[j] == other[n];
    assert other[i].index <= other[n].index;
  }

  lemma ButLast(items: seq<AddedItem>)
    requires items != []
    ensures
      var init, last := items[..|items| - 1], items[|items| - 1];
      && items == init + [last] && multiset(init) == multiset(items) - multiset{last}
      && (Sorted(items) ==> Sorted(init)) && (Ascending(items) ==> Ascending(init))
  {}

  /** With distinct indices there is only one order from the lowest up. */
  lemma {:induction false} AscendingUnique(one: seq<AddedItem>, other: seq<AddedItem>)
    requires Ascending(one) && Sorted(other) && multiset(one) == multiset(other)
    ensures one == other
    decreases |one|
  {
    if one == [] {
      assert |multiset(other)| == 0;
    } else {
      HighestLast(one, other);
      var n := |one| - 1;
      ButLast(one);
      ButLast(other);
      AscendingUnique(one[..n], other[..n]);
    }
  }

  lemma DistinctSortedAscends(items: seq<AddedItem>, added: seq<AddedItem>)
    requires DistinctIndices(added) && LowestFirst(items, added)
    ensures Ascending(items)
  {
    forall i, j | 0 <= i < j < |items| ensures items[i].index < items[j].index {
      if items[i].index == items[j].index {
        SameIndexTwice(items, i, j, added);
      }
    }
  }

  lemma SameIndexTwice(items: seq<AddedItem>, i: int, j: int, added: seq<AddedItem>)
    requires multiset(items) == multiset(added)
    requires 0 <= i < j < |items| && items[i].index == items[j].index
    ensures !DistinctIndices(added)
  {
    var x, y := items[i], items[j];
    if x == y {
      CountedTwice(items, i, j);
      FoundTwice(added, x);
    } else {
      assert x in multiset(added) && y in multiset(added);
      var a :| 0 <= a < |added| && added[a] == x;
      var b :| 0 <= b < |added| && added[b] == y;
      assert added[a].index == added[b].index;
    }
  }

  /**
   * For every list and every delta with distinct indices, splicing is: remove, insert one
   * by one from the lowest index, then cut or pad.
   */
  lemma SpliceFollowsTheRfc(ids: Sparse, removed: set<string>, added: seq<AddedItem>, order: seq<AddedItem>)
    requires DistinctIndices(added) && LowestFirst(order, added)
    requires forall k :: 0 <= k < |added| ==> InBounds(added[k].index)
    ensures forall k :: 0 <= k < |order| ==> order[k].index >= 0
    ensures Spliced(ids, removed, added) == InsertAll(Survivors(ids, removed), order)
  {
    DistinctSortedAscends(SortByIndex(added), added);
    AscendingUnique(SortByIndex(added), order);
    forall k | 0 <= k < |order| ensures order[k].index >= 0 {
      assert order[k] in multiset(added);
    }
    MergeIsInsertAll([], Survivors(ids, removed), order);
    assert [] + Survivors(ids, removed) == Survivors(ids, removed);
  }

  lemma SortOfTwo(one: AddedItem, two: AddedItem)
    requires one.index == two.index == 0
    ensures SortByIndex([one, two]) == [one, two]
  {
    assert [one, two][..1] == [one] && [one][..0] == [];
    assert SortByIndex([one]) == [one];
  }

  lemma MergeOfTwo(one: AddedItem, two: AddedItem)
    requires one.index == two.index == 0
    ensures MergePass([], [], [one, two]) == [Some(one.id), Some(two.id)]
  {
    assert [one, two][1..] == [two] && [two][1..] == [];
    var none: Sparse := [];
    var first: Sparse := [Some(one.id)];
    assert Placed(none, none, one) == (first, none) by { assert none + first == first; }
    assert Placed(first, none, two).0 == [Some(one.id), Some(two.id)];
    assert MergePass(first, none, [two]) == [Some(one.id), Some(two.id)];
  }

  lemma InsertOfTwo(one: AddedItem, two: AddedItem)
    requires one.index == two.index == 0
    ensures InsertAll([], [one, two]) == [Some(two.id), Some(one.id)]
  {
    assert [one, two][1..] == [two] && [two][1..] == [];
    assert InsertAt([], one) == [Some(one.id)];
    assert InsertAt([Some(one.id)], two) == [Some(two.id), Some(one.id)];
    assert InsertAll([Some(one.id)], [two]) == [Some(two.id), Some(one.id)];
  }

  /** Two items at one index come out in delta order, where inserting one by one reverses them. */
  lemma DuplicateIndicesDiffer(one: AddedItem, two: AddedItem)
    requires one.index == two.index == 0 && one.id != two.id
    ensures LowestFirst([one, two], [one, two])
    ensures Spliced([], {}, [one, two]) == [Some(one.id), Some(two.id)]
    ensures InsertAll([], [one, two]) == [Some(two.id), Some(one.id)]
  {
    SortOfTwo(one, two);
    MergeOfTwo(one, two);
    InsertOfTwo(one, two);
  }

  // ---------------------------------------------------------------------------
  // The view, which implies its tail of nulls
  // ---------------------------------------------------------------------------

  datatype QueryResponse = QueryResponse(
    position: int, ids: seq<string>, queryState: string, total: Option<int>, canCalculateChanges: bool)

  datatype QueryChanges = QueryChanges(
    oldQueryState: string, newQueryState: string, removed: seq<string>, added: seq<AddedItem>, total: Option<int>)

  function Removed(changes: QueryChanges): set<string> {
    set id | id in changes.removed
  }

  // What a view holds.
  datatype ViewState = ViewState(ids: Sparse, queryState: string, total: Option<int>, canCalculateChanges: bool)

  function Fetched(ids: seq<string>): Sparse {
    seq(|ids|, i requires 0 <= i < |ids| => Some(ids[i]))
  }

  function Cut(ids: Sparse, total: Option<int>): Sparse
    requires total.Some? ==> total.value >= 0
  {
    if total.Some? && total.value < |ids| then ids[..total.value] else ids
  }

  /** The view after a delta; a total it can hold only has to be non-negative. */
  function Applied(view: ViewState, changes: QueryChanges): Result<ViewState, ViewError> {
    if !view.canCalculateChanges then Failure(UncacheableQuery)
    else if changes.oldQueryState != view.queryState then
      Failure(StaleQueryView(view.queryState, changes.oldQueryState))
    else
      match SpliceError(changes.added, None)
      case Some(error) => Failure(error)
      case None =>
        if changes.total.Some? && changes.total.value < 0 then Failure(ViewTooLarge(Total, changes.total.value))
        else Success(ViewState(
          Cut(Spliced(view.ids, Removed(changes), changes.added), changes.total),
          changes.newQueryState, changes.total, true))
  }

  function FromQuery(response: QueryResponse): Result<ViewState, ViewError> {
    if !InBounds(response.position) then Failure(ViewTooLarge(Position, response.position))
    else if response.total.Some? && response.total.value < 0 then Failure(ViewTooLarge(Total, response.total.value))
    else Success(ViewState(Nulls(response.position) + Fetched(response.ids), response.queryState,
                           response.total, response.canCalculateChanges))
  }

  class QueryView {
    var ids: Sparse
    var queryState: string
    var total: Option<int>
    var canCalculateChanges: bool

    function State(): ViewState
      reads this
    {
      ViewState(ids, queryState, total, canCalculateChanges)
    }

    constructor (state: ViewState)
      ensures State() == state
    {
      ids, queryState, total, canCalculateChanges :=
        state.ids, state.queryState, state.total, state.canCalculateChanges;
    }

    /** Splices a delta into the view, in place; a refused delta leaves it as it was. */
    method Apply(changes: QueryChanges) returns (error: Option<ViewError>)
      modifies this
      ensures match Applied(old(State()), changes)
              case Success(after) => error.None? && State() == after
              case Failure(refused) => error == Some(refused) && State() == old(State())
    {
      if !canCalculateChanges { return Some(UncacheableQuery); }
      if changes.oldQueryState != queryState {
        return Some(StaleQueryView(queryState, changes.oldQueryState));
      }
      var spliced := Splice(ids, Removed(changes), changes.added, None);
      if spliced.Failure? { return Some(spliced.error); }
      var next := spliced.value;
      if changes.total.Some? {
        if changes.total.value < 0 { return Some(ViewTooLarge(Total, changes.total.value)); }
        if changes.total.value < |next| { next := next[..changes.total.value]; }
      }
      total := changes.total;
      ids := next;
      queryState := changes.newQueryState;
      return None;
    }

    /** Discards the cache and re-seeds it from a fresh query. */
    method Reset(response: QueryResponse) returns (error: Option<ViewError>)
      modifies this
      ensures match FromQuery(response)
              case Success(after) => error.None? && State() == after
              case Failure(refused) => error == Some(refused) && State() == old(State())
    {
      var refreshed := FromQuery(response);
      if refreshed.Failure? { return Some(refreshed.error); }
      ids, queryState, total, canCalculateChanges :=
        refreshed.value.ids, refreshed.value.queryState, refreshed.value.total, refreshed.value.canCalculateChanges;
      return None;
    }

    /** Every position the view knows of, the unstored tail included. */
    function Length(): (n: int)
      reads this
      ensures n >= |ids| && (total.Some? ==> n >= total.value)
      ensures n == |ids| || total == Some(n)
    {
      if total.Some? && total.value > |ids| then total.value else |ids|
    }
  }
}
