/**
 * Added items that share an index (src/jmap/sync/query.py): exactly when the single merge
 * pass is the one-by-one algorithm of section 5.6 of RFC 8620.
 */
module SpliceTies {
  import opened Wrappers
  import opened Sequences
  import opened QueryViews

  ghost predicate DistinctIds(items: seq<AddedItem>) {
    forall i, j :: 0 <= i < j < |items| ==> items[i].id != items[j].id
  }

  predicate Placeable(items: seq<AddedItem>) {
    forall k :: 0 <= k < |items| ==> items[k].index >= 0
  }

  // ---------------------------------------------------------------------------
  // Lists that differ stay different
  // ---------------------------------------------------------------------------

  lemma {:induction false} InsertAllConcat(ids: Sparse, a: seq<AddedItem>, b: seq<AddedItem>)
    requires Placeable(a) && Placeable(b)
    ensures Placeable(a + b) && InsertAll(ids, a + b) == InsertAll(InsertAll(ids, a), b)
    decreases |a|
  {
    if a == [] {
      assert a + b == b;
    } else {
      assert (a + b)[1..] == a[1..] + b;
      InsertAllConcat(InsertAt(ids, a[0]), a[1..], b);
    }
  }

  /** Where an element of the old list stands after an insertion. */
  function Moved(item: AddedItem, i: nat): nat {
    if i < item.index then i else i + 1
  }

  lemma InsertMoves(ids: Sparse, item: AddedItem, i: nat)
    requires item.index >= 0 && i < |ids|
    ensures Moved(item, i) < |InsertAt(ids, item)| && InsertAt(ids, item)[Moved(item, i)] == ids[i]
  {}

  lemma {:induction false} InsertAllKeepsApart(one: Sparse, other: Sparse, items: seq<AddedItem>)
    requires Placeable(items) && |one| == |other| && one != other
    ensures InsertAll(one, items) != InsertAll(other, items)
    decreases |items|
  {
    if items != [] {
      var i :| 0 <= i < |one| && one[i] != other[i];
      InsertMoves(one, items[0], i);
      InsertMoves(other, items[0], i);
      InsertAllKeepsApart(InsertAt(one, items[0]), InsertAt(other, items[0]), items[1..]);
    }
  }

  /** Of two items inserted at one index, the later comes out first. */
  lemma InsertTwo(ids: Sparse, x: AddedItem, y: AddedItem)
    requires x.index == y.index >= 0
    ensures
      var n, after := x.index, InsertAll(ids, [x, y]);
      && |after| == (if |ids| > n then |ids| else n) + 2
      && after[n] == Some(y.id) && after[n + 1] == Some(x.id)
  {
    var first := InsertAt(ids, x);
    assert [x, y][1..] == [y] && [y][1..] == [];
    assert InsertAll(first, [y]) == InsertAll(InsertAt(first, y), []) == InsertAt(first, y);
    assert first[x.index] == Some(x.id);
  }

  // ---------------------------------------------------------------------------
  // A tie has two lowest-first orders
  // ---------------------------------------------------------------------------

  predicate TieAt(order: seq<AddedItem>, i: nat) {
    i + 1 < |order| && order[i].index == order[i + 1].index && order[i].id != order[i + 1].id
  }

  function Swapped(order: seq<AddedItem>, i: nat): seq<AddedItem>
    requires i + 1 < |order|
  {
    order[..i] + [order[i + 1], order[i]] + order[i + 2..]
  }

  lemma SwapIsLowestFirst(order: seq<AddedItem>, added: seq<AddedItem>, i: nat)
    requires LowestFirst(order, added) && TieAt(order, i)
    ensures LowestFirst(Swapped(order, i), added)
  {
    assert order == order[..i] + [order[i], order[i + 1]] + order[i + 2..];
    var swapped := Swapped(order, i);
    forall j, k | 0 <= j < k < |swapped| ensures swapped[j].index <= swapped[k].index {
      assert swapped[j].index == order[j].index && swapped[k].index == order[k].index;
    }
  }

  /** The two orders of a tie give two lists, whatever is inserted before and after. */
  lemma SwapDiffers(ids: Sparse, order: seq<AddedItem>, i: nat)
    requires Placeable(order) && TieAt(order, i)
    ensures Placeable(Swapped(order, i)) && InsertAll(ids, order) != InsertAll(ids, Swapped(order, i))
  {
    var x, y, rest := order[i], order[i + 1], order[i + 2..];
    assert order == order[..i] + [x, y] + rest && Swapped(order, i) == order[..i] + [y, x] + rest;
    InsertAround(ids, order[..i], [x, y], rest);
    InsertAround(ids, order[..i], [y, x], rest);
    var before := InsertAll(ids, order[..i]);
    InsertTwo(before, x, y);
    InsertTwo(before, y, x);
    InsertAllKeepsApart(InsertAll(before, [x, y]), InsertAll(before, [y, x]), rest);
  }

  lemma InsertAround(ids: Sparse, first: seq<AddedItem>, pair: seq<AddedItem>, rest: seq<AddedItem>)
    requires Placeable(first) && Placeable(pair) && Placeable(rest)
    ensures Placeable(first + pair + rest)
    ensures InsertAll(ids, first + pair + rest) == InsertAll(InsertAll(InsertAll(ids, first), pair), rest)
  {
    InsertAllConcat(ids, first, pair);
    InsertAllConcat(ids, first + pair, rest);
  }

  /** In a sorted list, equal indices anywhere mean equal indices side by side. */
  lemma SideBySide(order: seq<AddedItem>, i: nat, j: nat)
    requires Sorted(order) && i < j < |order| && order[i].index == order[j].index
    ensures order[i].index == order[i + 1].index
  {}

  /** A repeated index among items of different ids is a tie in every lowest-first order. */
  lemma TieExists(added: seq<AddedItem>, order: seq<AddedItem>) returns (i: nat)
    requires DistinctIds(added) && LowestFirst(order, added) && !DistinctIndices(added)
    ensures TieAt(order, i)
  {
    var a, b :| 0 <= a < b < |added| && added[a].index == added[b].index;
    assert added[a] in multiset(order) && added[b] in multiset(order);
    var j :| 0 <= j < |order| && order[j] == added[a];
    var k :| 0 <= k < |order| && order[k] == added[b];
    i := if j < k then j else k;
    SideBySide(order, i, if j < k then k else j);
    if order[i] == order[i + 1] {
      CountedTwice(order, i, i + 1);
      FoundTwice(added, order[i]);
    }
  }

  // ---------------------------------------------------------------------------
  // Where items land
  // ---------------------------------------------------------------------------

  /** Where the merge puts item `j`: at its index, or next to the item before when that is taken. */
  function Landing(order: seq<AddedItem>, j: nat): int
    requires j < |order|
  {
    if j == 0 || order[j].index > Landing(order, j - 1) then order[j].index else Landing(order, j - 1) + 1
  }

  lemma {:induction false} LandingGrows(order: seq<AddedItem>, i: nat, j: nat)
    requires i < j < |order|
    ensures order[j].index <= Landing(order, j) && Landing(order, i) < Landing(order, j)
  {
    if i < j - 1 { LandingGrows(order, i, j - 1); }
  }

  /** Among the first `n` items, none names a position where an earlier one of another id has landed. */
  ghost predicate SettledTo(order: seq<AddedItem>, n: nat)
    requires n <= |order|
  {
    forall i, j :: 0 <= i < j < n && Landing(order, i) == order[j].index ==> order[i].id == order[j].id
  }

  ghost predicate Settled(order: seq<AddedItem>) {
    SettledTo(order, |order|)
  }

  /** From an index that is taken up to the last landing, an item has landed everywhere. */
  lemma {:induction false} LandedAt(order: seq<AddedItem>, j: nat, q: int) returns (i: nat)
    requires Sorted(order) && 0 < j < |order| && order[j].index <= q <= Landing(order, j - 1)
    ensures i < j && Landing(order, i) == q
    decreases j
  {
    i := j - 1;
    if q < Landing(order, i) { i := LandedAt(order, i, q); }
  }

  /** In a settled list, an item that is displaced has the id of all that displace it. */
  lemma {:induction false} DisplacedAlike(order: seq<AddedItem>, i: nat, j: nat)
    requires Sorted(order) && i < j < |order| && SettledTo(order, j + 1)
    requires order[j].index <= Landing(order, i)
    ensures order[i].id == order[j].id
    decreases j
  {
    if order[j].index < Landing(order, i) {
      if i < j - 1 { LandingGrows(order, i, j - 1); }
      var first := LandedAt(order, j, order[j].index);
      if i < first { LandingGrows(order, i, first); }
      DisplacedAlike(order, first, i);
    }
  }

  /** Items of one index are one item. */
  ghost predicate TiesAlike(order: seq<AddedItem>) {
    forall i, j :: 0 <= i < j < |order| && order[i].index == order[j].index ==> order[i].id == order[j].id
  }

  lemma SettledTiesAlike(order: seq<AddedItem>)
    requires Sorted(order) && Settled(order)
    ensures TiesAlike(order)
  {
    forall i, j | 0 <= i < j < |order| && order[i].index == order[j].index ensures order[i].id == order[j].id {
      if i > 0 { LandingGrows(order, i - 1, i); }
      DisplacedAlike(order, i, j);
    }
  }

  // ---------------------------------------------------------------------------
  // The merge and the insertions side by side
  // ---------------------------------------------------------------------------

  /** What the merge has placed and what it has left after the first `j` items. */
  function MergeState(ids: Sparse, order: seq<AddedItem>, j: nat): (Sparse, Sparse)
    requires j <= |order|
  {
    if j == 0 then ([], ids)
    else
      var (result, rest) := MergeState(ids, order, j - 1);
      Placed(result, rest, order[j - 1])
  }

  lemma {:induction false} MergeFrom(ids: Sparse, order: seq<AddedItem>, j: nat)
    requires j <= |order|
    ensures
      var (result, rest) := MergeState(ids, order, j);
      MergePass([], ids, order) == MergePass(result, rest, order[j..])
  {
    if j == 0 {
      assert order[0..] == order;
    } else {
      MergeFrom(ids, order, j - 1);
      assert order[j - 1..][0] == order[j - 1] && order[j - 1..][1..] == order[j..];
    }
  }

  /** What is placed ends at the last landing. */
  lemma {:induction false} PlacedLength(ids: Sparse, order: seq<AddedItem>, j: nat)
    requires Placeable(order) && j <= |order|
    ensures |MergeState(ids, order, j).0| == if j == 0 then 0 else Landing(order, j - 1) + 1
    ensures j > 0 ==> 0 <= Landing(order, j - 1)
  {
    if j > 0 { PlacedLength(ids, order, j - 1); }
  }

  /** Every item stands where it landed. */
  lemma {:induction false} StandsWhereLanded(ids: Sparse, order: seq<AddedItem>, j: nat, i: nat)
    requires Placeable(order) && i < j <= |order|
    ensures 0 <= Landing(order, i) < |MergeState(ids, order, j).0|
    ensures MergeState(ids, order, j).0[Landing(order, i)] == Some(order[i].id)
    decreases j
  {
    PlacedLength(ids, order, j);
    PlacedLength(ids, order, j - 1);
    if i < j - 1 {
      StandsWhereLanded(ids, order, j - 1, i);
      assert MergeState(ids, order, j - 1).0 <= MergeState(ids, order, j).0;
    }
  }

  lemma {:induction false} PlacedStays(result: Sparse, rest: Sparse, items: seq<AddedItem>, i: nat)
    requires i < |result|
    ensures i < |MergePass(result, rest, items)| && MergePass(result, rest, items)[i] == result[i]
    decreases |items|
  {
    if items != [] {
      var (longer, left) := Placed(result, rest, items[0]);
      PlacedStays(longer, left, items[1..], i);
    }
  }

  /** Inserting where only the same id stands is appending it. */
  lemma InsertAmongAlike(result: Sparse, rest: Sparse, item: AddedItem)
    requires 0 <= item.index < |result|
    requires forall q :: item.index <= q < |result| ==> result[q] == Some(item.id)
    ensures InsertAt(result + rest, item) == result + [Some(item.id)] + rest
  {
    assert result == result[..item.index] + result[item.index..];
  }

  lemma InsertBeyond(result: Sparse, rest: Sparse, item: AddedItem)
    requires |result| <= item.index
    ensures
      var (longer, left) := Placed(result, rest, item);
      InsertAt(result + rest, item) == longer + left
  {}

  /** As far as the list is settled, inserting one by one gives what the merge has. */
  lemma {:induction false} InsertedIsMerged(ids: Sparse, order: seq<AddedItem>, j: nat)
    requires Placeable(order) && Sorted(order) && j <= |order| && SettledTo(order, j)
    ensures InsertAll(ids, order[..j]) == MergeState(ids, order, j).0 + MergeState(ids, order, j).1
  {
    if j == 0 {
      assert [] + ids == ids;
    } else {
      var item := order[j - 1];
      var (result, rest) := MergeState(ids, order, j - 1);
      InsertedIsMerged(ids, order, j - 1);
      assert order[..j] == order[..j - 1] + [item];
      InsertAllConcat(ids, order[..j - 1], [item]);
      InsertOne(result + rest, item);
      PlacedLength(ids, order, j - 1);
      if item.index < |result| {
        forall q | item.index <= q < |result| ensures result[q] == Some(item.id) {
          var i := LandedAt(order, j - 1, q);
          StandsWhereLanded(ids, order, j - 1, i);
          DisplacedAlike(order, i, j - 1);
        }
        InsertAmongAlike(result, rest, item);
      } else {
        InsertBeyond(result, rest, item);
      }
    }
  }

  lemma InsertOne(ids: Sparse, item: AddedItem)
    requires item.index >= 0
    ensures InsertAll(ids, [item]) == InsertAt(ids, item)
  {
    assert [item][1..] == [];
  }

  // ---------------------------------------------------------------------------
  // The exact condition
  // ---------------------------------------------------------------------------

  lemma OrderIsPlaceable(order: seq<AddedItem>, added: seq<AddedItem>)
    requires LowestFirst(order, added) && Placeable(added)
    ensures Placeable(order)
  {
    forall k | 0 <= k < |order| ensures order[k].index >= 0 { assert order[k] in multiset(added); }
  }

  /** Splicing gives what inserting one by one gives, in whatever order the lowest index comes first. */
  ghost predicate FollowsTheRfc(ids: Sparse, removed: set<string>, added: seq<AddedItem>) {
    forall order :: LowestFirst(order, added) && Placeable(order) ==>
      Spliced(ids, removed, added) == InsertAll(Survivors(ids, removed), order)
  }

  /** When items of one index are one item, there is only one lowest-first order. */
  lemma {:induction false} OneOrder(one: seq<AddedItem>, other: seq<AddedItem>)
    requires Sorted(one) && TiesAlike(one) && Sorted(other) && multiset(one) == multiset(other)
    ensures one == other
    decreases |one|
  {
    if one == [] {
      assert |multiset(other)| == 0;
    } else {
      SameLast(one, other);
      ButLast(one);
      ButLast(other);
      OneOrder(one[..|one| - 1], other[..|other| - 1]);
    }
  }

  lemma SameLast(one: seq<AddedItem>, other: seq<AddedItem>)
    requires Sorted(one) && TiesAlike(one) && Sorted(other) && multiset(one) == multiset(other) && one != []
    ensures |one| == |other| && one[|one| - 1] == other[|other| - 1]
  {
    assert |one| == |multiset(one)| == |multiset(other)| == |other|;
    var n := |one| - 1;
    assert one[n] in multiset(other) && other[n] in multiset(one);
    var i :| 0 <= i <= n && other[i] == one[n];
    var j :| 0 <= j <= n && one[j] == other[n];
    assert other[i].index <= other[n].index && one[j].index <= one[n].index;
  }

  lemma SettledFollows(ids: Sparse, removed: set<string>, added: seq<AddedItem>)
    requires Placeable(added) && Settled(SortByIndex(added))
    ensures FollowsTheRfc(ids, removed, added)
  {
    var sorted, survivors := SortByIndex(added), Survivors(ids, removed);
    OrderIsPlaceable(sorted, added);
    InsertedIsMerged(survivors, sorted, |sorted|);
    MergeFrom(survivors, sorted, |sorted|);
    assert sorted[..|sorted|] == sorted && sorted[|sorted|..] == [];
    SettledTiesAlike(sorted);
    forall order | LowestFirst(order, added) && Placeable(order)
      ensures Spliced(ids, removed, added) == InsertAll(survivors, order)
    {
      OneOrder(sorted, order);
    }
  }

  /** Somewhere between two items of one index and different ids, two such items stand side by side. */
  lemma {:induction false} TieBetween(order: seq<AddedItem>, i: nat, j: nat) returns (k: nat)
    requires Sorted(order) && i < j < |order| && order[i].index == order[j].index && order[i].id != order[j].id
    ensures TieAt(order, k)
    decreases j - i
  {
    SideBySide(order, i, j);
    k := i;
    if order[i].id == order[i + 1].id { k := TieBetween(order, i + 1, j); }
  }

  lemma {:induction false} FirstUnsettled(order: seq<AddedItem>, n: nat) returns (i: nat, j: nat)
    requires n <= |order| && !SettledTo(order, n)
    ensures i < j < |order| && SettledTo(order, j)
    ensures Landing(order, i) == order[j].index && order[i].id != order[j].id
    decreases n
  {
    if SettledTo(order, n - 1) {
      j := n - 1;
      i :| i < j && Landing(order, i) == order[j].index && order[i].id != order[j].id;
    } else {
      i, j := FirstUnsettled(order, n - 1);
    }
  }

  /** Later insertions, none of another id at `n` itself, leave what stands there. */
  lemma {:induction false} InsertedStays(ids: Sparse, items: seq<AddedItem>, n: nat, id: string)
    requires Placeable(items) && n < |ids| && ids[n] == Some(id)
    requires forall k :: 0 <= k < |items| ==> n < items[k].index || (n == items[k].index && items[k].id == id)
    ensures n < |InsertAll(ids, items)| && InsertAll(ids, items)[n] == Some(id)
    decreases |items|
  {
    if items != [] { InsertedStays(InsertAt(ids, items[0]), items[1..], n, id); }
  }

  lemma MergedThere(ids: Sparse, order: seq<AddedItem>, i: nat, j: nat)
    requires Placeable(order) && i < j <= |order|
    ensures
      var n, merged := Landing(order, i), MergePass([], ids, order);
      0 <= n < |merged| && merged[n] == Some(order[i].id)
  {
    StandsWhereLanded(ids, order, j, i);
    MergeFrom(ids, order, j);
    PlacedStays(MergeState(ids, order, j).0, MergeState(ids, order, j).1, order[j..], Landing(order, i));
  }

  lemma InsertedThere(ids: Sparse, order: seq<AddedItem>, j: nat)
    requires Placeable(order) && Sorted(order) && TiesAlike(order) && j < |order| && SettledTo(order, j)
    requires order[j].index < |MergeState(ids, order, j).0|
    ensures
      var n, inserted := order[j].index, InsertAll(ids, order);
      n < |inserted| && inserted[n] == Some(order[j].id)
  {
    var before, item, rest := order[..j], order[j], order[j + 1..];
    InsertedIsMerged(ids, order, j);
    assert order == before + [item] + rest;
    InsertAround(ids, before, [item], rest);
    InsertOne(InsertAll(ids, before), item);
    InsertedStays(InsertAt(InsertAll(ids, before), item), rest, item.index, item.id);
  }

  /** Where the list first stops being settled, the merge and the insertions part for good. */
  lemma UnsettledDiffers(ids: Sparse, order: seq<AddedItem>, i: nat, j: nat)
    requires Placeable(order) && Sorted(order) && TiesAlike(order) && i < j < |order| && SettledTo(order, j)
    requires Landing(order, i) == order[j].index && order[i].id != order[j].id
    ensures MergePass([], ids, order) != InsertAll(ids, order)
  {
    StandsWhereLanded(ids, order, j, i);
    MergedThere(ids, order, i, j);
    InsertedThere(ids, order, j);
  }

  /**
   * The exact condition, for every list and every delta of usable indices: splicing is the
   * algorithm of the RFC if and only if, from the lowest index up, no item names a position
   * where an earlier item of another id has landed.
   */
  lemma FollowsTheRfcExactly(ids: Sparse, removed: set<string>, added: seq<AddedItem>)
    requires forall k :: 0 <= k < |added| ==> InBounds(added[k].index)
    ensures forall order :: LowestFirst(order, added) ==> Placeable(order)
    ensures FollowsTheRfc(ids, removed, added) <==> Settled(SortByIndex(added))
  {
    forall order | LowestFirst(order, added) ensures Placeable(order) { OrderIsPlaceable(order, added); }
    var order := SortByIndex(added);
    if Settled(order) {
      SettledFollows(ids, removed, added);
    } else if TiesAlike(order) {
      var i, j := FirstUnsettled(order, |order|);
      UnsettledDiffers(Survivors(ids, removed), order, i, j);
    } else {
      var i, j :| 0 <= i < j < |order| && order[i].index == order[j].index && order[i].id != order[j].id;
      var k := TieBetween(order, i, j);
      SwapIsLowestFirst(order, added, k);
      SwapDiffers(Survivors(ids, removed), order, k);
    }
  }

  /** For a delta that adds no id twice, the condition is that no two items share an index. */
  lemma FollowsTheRfcWithoutRepeats(ids: Sparse, removed: set<string>, added: seq<AddedItem>)
    requires forall k :: 0 <= k < |added| ==> InBounds(added[k].index)
    requires DistinctIds(added)
    ensures FollowsTheRfc(ids, removed, added) <==> DistinctIndices(added)
  {
    FollowsTheRfcExactly(ids, removed, added);
    if DistinctIndices(added) {
      forall order | LowestFirst(order, added)
        ensures Spliced(ids, removed, added) == InsertAll(Survivors(ids, removed), order)
      {
        SpliceFollowsTheRfc(ids, removed, added, order);
      }
    } else {
      var order := SortByIndex(added);
      var i := TieExists(added, order);
      SwapIsLowestFirst(order, added, i);
      SwapDiffers(Survivors(ids, removed), order, i);
    }
  }
}
