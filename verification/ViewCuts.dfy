/**
 * What the cut to a reported total in `QueryView.apply` saves (src/jmap/sync/query.py): the
 * exact condition under which an applied delta keeps a view right.
 */
module ViewCuts {
  import opened Wrappers
  import opened QueryViews
  import opened ViewAgreement

  /** How many survivors of the removal come before position `q` of the view. */
  function Rank(view: Sparse, removed: set<string>, q: nat): nat
    requires q <= |view|
  {
    |Survivors(view[..q], removed)|
  }

  /** Every value of a merge is an added item at its index or a survivor at its place. */
  lemma {:induction false} MergeOrigin(result: Sparse, rest: Sparse, items: seq<AddedItem>, i: nat)
    returns (added: bool, from: nat)
    requires Ascends(items, |result|) && |result| <= i < |MergePass(result, rest, items)|
    requires MergePass(result, rest, items)[i].Some?
    ensures added ==>
      from < |items| && items[from].index == i && MergePass(result, rest, items)[i] == Some(items[from].id)
    ensures !added ==>
      from < |rest| && Place(items, |result|, from) == i && MergePass(result, rest, items)[i] == rest[from]
    decreases |items|
  {
    if items == [] {
      added, from := false, i - |result|;
    } else {
      var item := items[0];
      var (longer, left) := Placed(result, rest, item);
      assert |longer| == item.index + 1;
      if i <= item.index {
        MergeKeeps(longer, left, items[1..], i);
        added := i == item.index;
        from := if added then 0 else i - |result|;
      } else {
        var later;
        later, from := MergeOrigin(longer, left, items[1..], i);
        added := later;
        from := if later then from + 1 else from + (item.index - |result|);
      }
    }
  }

  /** Every survivor with an id is a known survivor of the view. */
  lemma {:induction false} SurvivorOrigin(view: Sparse, removed: set<string>, s: nat) returns (q: nat)
    requires s < |Survivors(view, removed)| && Survivors(view, removed)[s].Some?
    ensures KnownSurvivor(view, removed, q) && Rank(view, removed, q) == s && view[q] == Survivors(view, removed)[s]
  {
    var init := view[..|view| - 1];
    if s < |Survivors(init, removed)| {
      q := SurvivorOrigin(init, removed, s);
      assert view[..q] == init[..q];
    } else {
      q := |view| - 1;
    }
  }

  /** The server's list holds the survivor's id where the merge puts it. */
  ghost predicate RightPlace(view: Sparse, removed: set<string>, order: seq<AddedItem>, after: seq<string>, q: nat)
    requires KnownSurvivor(view, removed, q) && Ascends(order, 0)
  {
    var p := Place(order, 0, Rank(view, removed, q));
    p < |after| && after[p] == view[q].value
  }

  ghost predicate HiddenBefore(view: Sparse, before: seq<string>, removed: set<string>, q: nat) {
    exists p :: Hidden(view, before, removed, p) && p < q
  }

  /** A survivor is placed right exactly when no removed id hides before it. */
  lemma PlacedExactly(
    view: Sparse, before: seq<string>, removed: set<string>, added: seq<AddedItem>, after: seq<string>,
    order: seq<AddedItem>, q: nat)
    requires Agrees(view, before) && Describes(before, removed, added, after)
    requires forall i, j :: 0 <= i < j < |after| ==> after[i] != after[j]
    requires order == SortByIndex(added) && KnownSurvivor(view, removed, q)
    ensures Ascends(order, 0)
    ensures RightPlace(view, removed, order, after, q) <==> !HiddenBefore(view, before, removed, q)
  {
    var sorted := DescribedOrder(before, removed, added, after);
    var s, t := Rank(view, removed, q), |Kept(before[..q], removed)|;
    SurvivorsRunLong(view, before, removed, q);
    KeptAt(before, removed, q);
    OthersPlaced(after, 0, order, t);
    NoneHiddenCountsZero(view, before, removed, q);
    if HiddenBefore(view, before, removed, q) {
      var p :| Hidden(view, before, removed, p) && p < q;
      PlaceMonotone(order, 0, t, s);
    }
  }

  /** The survivor stands at its place in the spliced list. */
  lemma SurvivorStands(view: Sparse, removed: set<string>, order: seq<AddedItem>, q: nat)
    requires Ascends(order, 0) && KnownSurvivor(view, removed, q)
    ensures
      var p, merged := Place(order, 0, Rank(view, removed, q)), MergePass([], Survivors(view, removed), order);
      p < |merged| && merged[p] == view[q]
  {
    KnownAt(view, removed, q);
    MergePlaces([], Survivors(view, removed), order, Rank(view, removed, q));
  }

  /** The cut drops what would stand at `p`. */
  predicate IsCut(total: Option<int>, p: int) {
    total.Some? && total.value <= p
  }

  /** Every known survivor with a removed id hidden before it is placed past the cut. */
  ghost predicate MisplacedAreCut(
    view: Sparse, before: seq<string>, removed: set<string>, order: seq<AddedItem>, total: Option<int>)
    requires Ascends(order, 0)
  {
    forall q: nat :: KnownSurvivor(view, removed, q) && HiddenBefore(view, before, removed, q) ==>
      IsCut(total, Place(order, 0, Rank(view, removed, q)))
  }

  /** One known value of the spliced list is right, unless a misplaced survivor that the cut leaves. */
  lemma ValueIsRight(
    view: Sparse, before: seq<string>, removed: set<string>, added: seq<AddedItem>, after: seq<string>,
    order: seq<AddedItem>, total: Option<int>, i: nat)
    requires Agrees(view, before) && Describes(before, removed, added, after)
    requires forall i, j :: 0 <= i < j < |after| ==> after[i] != after[j]
    requires order == SortByIndex(added) && Ascends(order, 0) && MisplacedAreCut(view, before, removed, order, total)
    requires i < |Spliced(view, removed, added)| && Spliced(view, removed, added)[i].Some? && !IsCut(total, i)
    ensures i < |after| && after[i] == Spliced(view, removed, added)[i].value
  {
    var sorted := DescribedOrder(before, removed, added, after);
    var isNew, from := MergeOrigin([], Survivors(view, removed), order, i);
    if !isNew {
      var q := SurvivorOrigin(view, removed, from);
      PlacedExactly(view, before, removed, added, after, order, q);
      assert RightPlace(view, removed, order, after, q);
    }
  }

  lemma CutKeepsRight(
    view: Sparse, before: seq<string>, removed: set<string>, added: seq<AddedItem>, after: seq<string>,
    order: seq<AddedItem>, total: Option<int>)
    requires Agrees(view, before) && Describes(before, removed, added, after)
    requires forall i, j :: 0 <= i < j < |after| ==> after[i] != after[j]
    requires order == SortByIndex(added) && Ascends(order, 0) && MisplacedAreCut(view, before, removed, order, total)
    requires total.Some? ==> total.value >= 0
    ensures Agrees(Cut(Spliced(view, removed, added), total), after)
  {
    var cut := Cut(Spliced(view, removed, added), total);
    forall i | 0 <= i < |cut| && cut[i].Some? ensures i < |after| && after[i] == cut[i].value {
      ValueIsRight(view, before, removed, added, after, order, total, i);
    }
  }

  /** A survivor the cut leaves in a view that agrees is placed right. */
  lemma LeftIsRight(
    view: Sparse, removed: set<string>, added: seq<AddedItem>, after: seq<string>, order: seq<AddedItem>,
    total: Option<int>, q: nat)
    requires order == SortByIndex(added) && Ascends(order, 0) && KnownSurvivor(view, removed, q)
    requires total.Some? ==> total.value >= 0
    requires Agrees(Cut(Spliced(view, removed, added), total), after)
    requires !IsCut(total, Place(order, 0, Rank(view, removed, q)))
    ensures RightPlace(view, removed, order, after, q)
  {
    SurvivorStands(view, removed, order, q);
    var p, cut := Place(order, 0, Rank(view, removed, q)), Cut(Spliced(view, removed, added), total);
    assert p < |cut| && cut[p] == view[q];
  }

  /**
   * The exact condition for `apply`, cut included: the new view agrees with the new list if
   * and only if every known survivor with a removed id hidden before it is placed past the cut.
   */
  lemma ApplyAgreesExactly(
    view: ViewState, before: seq<string>, changes: QueryChanges, next: ViewState, after: seq<string>,
    order: seq<AddedItem>)
    requires Applied(view, changes) == Success(next) && order == SortByIndex(changes.added)
    requires Agrees(view.ids, before) && Describes(before, Removed(changes), changes.added, after)
    requires forall i, j :: 0 <= i < j < |after| ==> after[i] != after[j]
    ensures Ascends(order, 0)
    ensures Agrees(next.ids, after) <==> MisplacedAreCut(view.ids, before, Removed(changes), order, changes.total)
  {
    var removed := Removed(changes);
    var sorted := DescribedOrder(before, removed, changes.added, after);
    if MisplacedAreCut(view.ids, before, removed, order, changes.total) {
      CutKeepsRight(view.ids, before, removed, changes.added, after, order, changes.total);
    }
    if Agrees(next.ids, after) {
      forall q: nat | KnownSurvivor(view.ids, removed, q) && HiddenBefore(view.ids, before, removed, q)
        ensures IsCut(changes.total, Place(order, 0, Rank(view.ids, removed, q)))
      {
        PlacedExactly(view.ids, before, removed, changes.added, after, order, q);
        if !IsCut(changes.total, Place(order, 0, Rank(view.ids, removed, q))) {
          LeftIsRight(view.ids, removed, changes.added, after, order, changes.total, q);
        }
      }
    }
  }
}
