/** Facts about sequences that several components share. */
module Sequences {

  /** Each element once, in the order first seen: `list(dict.fromkeys(s))`. */
  function Dedup<T(==)>(s: seq<T>): (d: seq<T>)
    ensures forall x | x in s :: x in d
    ensures forall x | x in d :: x in s
  {
    if s == [] then []
    else
      var last := s[|s| - 1];
      var init := s[..|s| - 1];
      assert s == init + [last];
      var d := Dedup(init);
      if last in d then d else d + [last]
  }

  ghost predicate NoRepeats<T>(s: seq<T>) {
    forall i, j :: 0 <= i < j < |s| ==> s[i] != s[j]
  }

  lemma {:induction false} DedupNoRepeats<T>(s: seq<T>)
    ensures NoRepeats(Dedup(s))
  {
    if s != [] { DedupNoRepeats(s[..|s| - 1]); }
  }

  /** Where `x` first stands in `s`. */
  function FirstIndex<T(==)>(s: seq<T>, x: T): (i: nat)
    requires x in s
    ensures i < |s| && s[i] == x
    ensures forall j :: 0 <= j < i ==> s[j] != x
  {
    if s[0] == x then 0 else 1 + FirstIndex(s[1..], x)
  }

  /** The order of `Dedup(s)` is the order of first sightings. */
  lemma {:induction false} DedupInOrder<T>(s: seq<T>, i: nat, j: nat)
    requires i < j < |Dedup(s)|
    ensures FirstIndex(s, Dedup(s)[i]) < FirstIndex(s, Dedup(s)[j])
  {
    var init, last := s[..|s| - 1], s[|s| - 1];
    assert s == init + [last];
    FirstIndexOfPrefix(init, last, Dedup(s)[i]);
    FirstIndexOfPrefix(init, last, Dedup(s)[j]);
    if j < |Dedup(init)| { DedupInOrder(init, i, j); }
  }

  lemma FirstIndexOfPrefix<T>(init: seq<T>, last: T, x: T)
    requires x in init + [last]
    ensures FirstIndex(init + [last], x) == if x in init then FirstIndex(init, x) else |init|
  {
    var whole := init + [last];
    var i := FirstIndex(whole, x);
    if x in init {
      assert whole[FirstIndex(init, x)] == x;
    }
  }

  /** Adding the elements of `t` one by one to a deduplicated list deduplicates the concatenation. */
  lemma {:induction false} DedupSnoc<T>(s: seq<T>, x: T)
    ensures Dedup(s + [x]) == if x in s then Dedup(s) else Dedup(s) + [x]
  {
    assert (s + [x])[..|s|] == s;
  }

  lemma {:induction false} DedupOfNoRepeats<T>(s: seq<T>)
    requires NoRepeats(s)
    ensures Dedup(s) == s
  {
    if s != [] {
      DedupOfNoRepeats(s[..|s| - 1]);
      assert s == s[..|s| - 1] + [s[|s| - 1]];
    }
  }

  function Concat<T>(parts: seq<seq<T>>): seq<T> {
    if parts == [] then [] else Concat(parts[..|parts| - 1]) + parts[|parts| - 1]
  }

  lemma {:induction false} FoundTwice<T>(s: seq<T>, x: T)
    requires multiset(s)[x] >= 2
    ensures exists a, b :: 0 <= a < b < |s| && s[a] == x && s[b] == x
  {
    var init, last := s[..|s| - 1], s[|s| - 1];
    assert s == init + [last];
    if last == x {
      assert x in multiset(init);
      var a :| 0 <= a < |init| && init[a] == x;
      assert s[a] == x && s[|s| - 1] == x;
    } else {
      FoundTwice(init, x);
      var a, b :| 0 <= a < b < |init| && init[a] == x && init[b] == x;
      assert s[a] == x && s[b] == x;
    }
  }

  lemma CountedTwice<T>(s: seq<T>, a: nat, b: nat)
    requires a < b < |s| && s[a] == s[b]
    ensures multiset(s)[s[a]] >= 2
  {
    assert s == s[..b] + s[b..];
    assert s[..b][a] == s[a] && s[b..][0] == s[a];
  }

  lemma {:induction false} CountedOnce<T>(s: seq<T>, x: T)
    requires NoRepeats(s)
    ensures multiset(s)[x] == if x in s then 1 else 0
  {
    if s != [] {
      var init, last := s[..|s| - 1], s[|s| - 1];
      assert s == init + [last];
      CountedOnce(init, x);
    }
  }

  /** Two lists of the same elements, none repeated, hold them in some other order only. */
  lemma SameElements<T>(a: seq<T>, b: seq<T>)
    requires NoRepeats(a) && NoRepeats(b)
    requires (forall x | x in a :: x in b) && (forall x | x in b :: x in a)
    ensures multiset(a) == multiset(b)
  {
    forall x | x in multiset(a) || x in multiset(b) ensures multiset(a)[x] == multiset(b)[x] {
      CountedOnce(a, x);
      CountedOnce(b, x);
    }
  }
}
