/** Splitting an oversized `Foo/get` and merging its chunks (src/jmap/chunking.py). */
module Chunking {
  import opened Wrappers
  import opened Sequences
  import Json

  // ---------------------------------------------------------------------------
  // Chunks
  // ---------------------------------------------------------------------------

  /** Consecutive slices of `size` ids, the last one perhaps shorter. */
  function Chunks<T>(ids: seq<T>, size: nat): seq<seq<T>>
    requires size >= 1
    decreases |ids|
  {
    if ids == [] then []
    else if |ids| <= size then [ids]
    else [ids[..size]] + Chunks(ids[size..], size)
  }

  lemma {:induction false} ConcatFront<T>(first: seq<T>, rest: seq<seq<T>>)
    ensures Concat([first] + rest) == first + Concat(rest)
  {
    var all := [first] + rest;
    if rest == [] {
      assert all[..0] == [];
    } else {
      assert all[..|all| - 1] == [first] + rest[..|rest| - 1];
      ConcatFront(first, rest[..|rest| - 1]);
    }
  }

  /** No chunk is empty or over the limit, and together they are the list. */
  lemma {:induction false} ChunksCover<T>(ids: seq<T>, size: nat)
    requires size >= 1
    ensures Concat(Chunks(ids, size)) == ids
    ensures forall c :: 0 <= c < |Chunks(ids, size)| ==> 1 <= |Chunks(ids, size)[c]| <= size
    ensures forall c :: 0 <= c < |Chunks(ids, size)| - 1 ==> |Chunks(ids, size)[c]| == size
    decreases |ids|
  {
    if |ids| > size {
      ChunksCover(ids[size..], size);
      ConcatFront(ids[..size], Chunks(ids[size..], size));
    } else if ids != [] {
      ConcatFront(ids, []);
      assert [ids] + [] == [ids];
    }
  }

  lemma ChunksStep<T>(ids: seq<T>, start: nat, stop: nat, size: nat)
    requires size >= 1 && start < |ids|
    requires stop == if start + size < |ids| then start + size else |ids|
    ensures Chunks(ids[start..], size) == [ids[start..stop]] + Chunks(ids[stop..], size)
  {
    var rest := ids[start..];
    if start + size < |ids| {
      assert rest[..size] == ids[start..stop] && rest[size..] == ids[stop..];
    } else {
      assert ids[start..stop] == rest && ids[stop..] == [];
    }
  }

  lemma ManyChunks<T>(ids: seq<T>, size: nat)
    requires 1 <= size < |ids|
    ensures |Chunks(ids, size)| >= 2
  {
    ChunksStep(ids, size, if 2 * size < |ids| then 2 * size else |ids|, size);
  }

  /** The slices of `ids` that start at multiples of `size`. */
  method ChunkIds<T>(ids: seq<T>, size: nat) returns (parts: seq<seq<T>>)
    requires size >= 1
    ensures parts == Chunks(ids, size)
  {
    parts := [];
    var start := 0;
    assert ids[0..] == ids;
    while start < |ids|
      invariant start <= |ids|
      invariant parts + Chunks(ids[start..], size) == Chunks(ids, size)
    {
      var stop := if start + size < |ids| then start + size else |ids|;
      ChunksStep(ids, start, stop, size);
      assert parts + ([ids[start..stop]] + Chunks(ids[stop..], size))
          == (parts + [ids[start..stop]]) + Chunks(ids[stop..], size);
      parts := parts + [ids[start..stop]];
      start := stop;
    }
    assert Chunks(ids[start..], size) == [];
  }

  /**
   * The ids a `/get` is split into; None leaves the call whole. A list that fits once its
   * repeats are dropped goes out as it was given.
   */
  method SplitIfOversized<T(==)>(given: seq<T>, limit: nat) returns (chunks: Option<seq<seq<T>>>)
    requires limit >= 1
    ensures chunks.None? <==> |Dedup(given)| <= limit
    ensures chunks.Some? ==>
              && Concat(chunks.value) == Dedup(given)
              && (forall c :: 0 <= c < |chunks.value| ==> 1 <= |chunks.value[c]| <= limit)
              && |chunks.value| >= 2
  {
    DedupNoLonger(given);
    if |given| <= limit { return None; }
    var ids := Dedup(given);
    if |ids| <= limit { return None; }
    ChunksCover(ids, limit);
    ManyChunks(ids, limit);
    var parts := ChunkIds(ids, limit);
    return Some(parts);
  }

  lemma {:induction false} DedupNoLonger<T>(s: seq<T>)
    ensures |Dedup(s)| <= |s|
  {
    if s != [] { DedupNoLonger(s[..|s| - 1]); }
  }

  // ---------------------------------------------------------------------------
  // Merging
  // ---------------------------------------------------------------------------

  datatype GetResult = GetResult(
    accountId: Option<string>,
    state: Option<string>,
    items: seq<Json.Value>,
    notFound: seq<string>)

  function AllItems(results: seq<GetResult>): seq<Json.Value> {
    Concat(seq(|results|, i requires 0 <= i < |results| => results[i].items))
  }

  function AllNotFound(results: seq<GetResult>): seq<string> {
    Concat(seq(|results|, i requires 0 <= i < |results| => results[i].notFound))
  }

  ghost predicate Torn(results: seq<GetResult>) {
    exists i, j :: 0 <= i < j < |results|
      && results[i].state.Some? && results[j].state.Some? && results[i].state != results[j].state
  }

  /** Combines the chunks of one `/get`; the error lists the states that were seen. */
  method MergeGetResults(results: seq<GetResult>) returns (merged: Result<GetResult, seq<string>>)
    requires results != []
    ensures merged.Failure? <==> Torn(results)
    ensures merged.Success? ==>
              merged.value == results[0].(items := AllItems(results), notFound := AllNotFound(results))
    ensures merged.Failure? ==>
              forall s :: s in merged.error <==> exists i :: 0 <= i < |results| && results[i].state == Some(s)
  {
    var states: seq<string> := [];
    for i := 0 to |results|
      invariant forall s :: s in states <==> exists j :: 0 <= j < i && results[j].state == Some(s)
    {
      if results[i].state.Some? {
        states := states + [results[i].state.value];
      }
    }
    if exists s, t :: s in states && t in states && s != t {
      ghost var s, t :| s in states && t in states && s != t;
      ghost var i :| 0 <= i < |results| && results[i].state == Some(s);
      ghost var j :| 0 <= j < |results| && results[j].state == Some(t);
      assert Torn(results);
      return Failure(states);
    }
    var items: seq<Json.Value> := [];
    var notFound: seq<string> := [];
    for i := 0 to |results|
      invariant items == AllItems(results[..i])
      invariant notFound == AllNotFound(results[..i])
    {
      GatherSnoc(results, i);
      items := items + results[i].items;
      notFound := notFound + results[i].notFound;
    }
    assert results[..|results|] == results;
    return Success(results[0].(items := items, notFound := notFound));
  }

  lemma GatherSnoc(results: seq<GetResult>, i: nat)
    requires i < |results|
    ensures AllItems(results[..i + 1]) == AllItems(results[..i]) + results[i].items
    ensures AllNotFound(results[..i + 1]) == AllNotFound(results[..i]) + results[i].notFound
  {
    var longer, shorter := results[..i + 1], results[..i];
    var items := seq(|longer|, k requires 0 <= k < |longer| => longer[k].items);
    assert items[..i] == seq(|shorter|, k requires 0 <= k < |shorter| => shorter[k].items);
    var notFound := seq(|longer|, k requires 0 <= k < |longer| => longer[k].notFound);
    assert notFound[..i] == seq(|shorter|, k requires 0 <= k < |shorter| => shorter[k].notFound);
  }

  // ---------------------------------------------------------------------------
  // Against a server
  // ---------------------------------------------------------------------------

  // The records of one type at one state.
  datatype Snapshot = Snapshot(state: string, records: map<string, Json.Value>)

  function Found(records: map<string, Json.Value>, ids: seq<string>): seq<Json.Value> {
    if ids == [] then []
    else
      var last := ids[|ids| - 1];
      Found(records, ids[..|ids| - 1]) + (if last in records then [records[last]] else [])
  }

  function Missing(records: map<string, Json.Value>, ids: seq<string>): seq<string> {
    if ids == [] then []
    else
      var last := ids[|ids| - 1];
      Missing(records, ids[..|ids| - 1]) + (if last in records then [] else [last])
  }

  /**
   * Section 5.1 of RFC 8620: an answer lists the records found and the ids not found, a
   * repeated id counting once, both in whatever order the server likes.
   */
  ghost predicate IsAnswer(account: Option<string>, at: Snapshot, ids: seq<string>, result: GetResult) {
    && result.accountId == account && result.state == Some(at.state)
    && multiset(result.items) == multiset(Found(at.records, Dedup(ids)))
    && multiset(result.notFound) == multiset(Missing(at.records, Dedup(ids)))
  }

  lemma {:induction false} LookupConcat(records: map<string, Json.Value>, a: seq<string>, b: seq<string>)
    ensures Found(records, a + b) == Found(records, a) + Found(records, b)
    ensures Missing(records, a + b) == Missing(records, a) + Missing(records, b)
    decreases |b|
  {
    if b == [] {
      assert a + b == a;
    } else {
      assert (a + b)[..|a + b| - 1] == a + b[..|b| - 1];
      LookupConcat(records, a, b[..|b| - 1]);
    }
  }

  /** The states a server shows determine its data. */
  ghost predicate Coherent(snapshots: seq<Snapshot>) {
    forall i, j :: 0 <= i < |snapshots| && 0 <= j < |snapshots| && snapshots[i].state == snapshots[j].state ==>
      snapshots[i].records == snapshots[j].records
  }

  /** Chunk c was answered by the server as it stood at snapshot c. */
  ghost predicate AnsweredAt(account: Option<string>, snapshots: seq<Snapshot>, chunks: seq<seq<string>>,
                             results: seq<GetResult>) {
    && |snapshots| == |chunks| == |results|
    && forall c :: 0 <= c < |chunks| ==> IsAnswer(account, snapshots[c], chunks[c], results[c])
  }

  lemma ChunkLookup(account: Option<string>, at: Snapshot, chunk: seq<string>, result: GetResult)
    requires IsAnswer(account, at, chunk, result) && NoRepeats(chunk)
    ensures multiset(result.items) == multiset(Found(at.records, chunk))
    ensures multiset(result.notFound) == multiset(Missing(at.records, chunk))
  {
    DedupOfNoRepeats(chunk);
  }

  lemma OneMoreChunk(account: Option<string>, at: Snapshot, before: seq<string>, chunk: seq<string>,
                     results: seq<GetResult>)
    requires results != [] && IsAnswer(account, at, chunk, results[|results| - 1]) && NoRepeats(chunk)
    requires multiset(AllItems(results[..|results| - 1])) == multiset(Found(at.records, before))
    requires multiset(AllNotFound(results[..|results| - 1])) == multiset(Missing(at.records, before))
    ensures multiset(AllItems(results)) == multiset(Found(at.records, before + chunk))
    ensures multiset(AllNotFound(results)) == multiset(Missing(at.records, before + chunk))
  {
    var n := |results| - 1;
    ChunkLookup(account, at, chunk, results[n]);
    LookupConcat(at.records, before, chunk);
    GatherSnoc(results, n);
    assert results[..n + 1] == results;
  }

  lemma {:induction false} GatheredIsOneLookup(
    account: Option<string>, snapshots: seq<Snapshot>, chunks: seq<seq<string>>, results: seq<GetResult>,
    records: map<string, Json.Value>)
    requires AnsweredAt(account, snapshots, chunks, results)
    requires forall c :: 0 <= c < |chunks| ==> snapshots[c].records == records
    requires NoRepeats(Concat(chunks))
    ensures multiset(AllItems(results)) == multiset(Found(records, Concat(chunks)))
    ensures multiset(AllNotFound(results)) == multiset(Missing(records, Concat(chunks)))
    decreases |chunks|
  {
    if chunks != [] {
      var n := |chunks| - 1;
      NoRepeatsInParts(Concat(chunks[..n]), chunks[n]);
      GatheredIsOneLookup(account, snapshots[..n], chunks[..n], results[..n], records);
      OneMoreChunk(account, snapshots[n], Concat(chunks[..n]), chunks[n], results);
    }
  }

  lemma NoRepeatsInParts<T>(a: seq<T>, b: seq<T>)
    requires NoRepeats(a + b)
    ensures NoRepeats(a) && NoRepeats(b)
  {
    forall i, j | 0 <= i < j < |a| ensures a[i] != a[j] { assert (a + b)[i] != (a + b)[j]; }
    forall i, j | 0 <= i < j < |b| ensures b[i] != b[j] { assert (a + b)[|a| + i] != (a + b)[|a| + j]; }
  }

  /**
   * A split `/get` whose chunks all report a state is torn exactly when two chunks saw
   * different states, and otherwise its merge is an answer the unsplit call could have had at
   * that state: every record and every missing id of the list, each as often as there.
   */
  lemma MergeIsOneAnswer(account: Option<string>, given: seq<string>, snapshots: seq<Snapshot>,
                         chunks: seq<seq<string>>, results: seq<GetResult>)
    requires Coherent(snapshots) && AnsweredAt(account, snapshots, chunks, results)
    requires chunks != [] && Concat(chunks) == Dedup(given)
    ensures Torn(results) <==> exists i, j :: 0 <= i < j < |snapshots| && snapshots[i].state != snapshots[j].state
    ensures !Torn(results) ==>
              IsAnswer(account, snapshots[0], given,
                       results[0].(items := AllItems(results), notFound := AllNotFound(results)))
  {
    forall i, j | 0 <= i < j < |results|
      ensures results[i].state == Some(snapshots[i].state) && results[j].state == Some(snapshots[j].state)
    {
      assert IsAnswer(account, snapshots[i], chunks[i], results[i]);
      assert IsAnswer(account, snapshots[j], chunks[j], results[j]);
    }
    assert IsAnswer(account, snapshots[0], chunks[0], results[0]);
    if Torn(results) {
      var i, j :| 0 <= i < j < |results|
        && results[i].state.Some? && results[j].state.Some? && results[i].state != results[j].state;
      assert snapshots[i].state != snapshots[j].state;
    } else {
      forall c | 0 <= c < |snapshots| ensures snapshots[c].state == snapshots[0].state {
        if c > 0 { assert !(results[0].state != results[c].state); }
      }
      DedupNoRepeats(given);
      GatheredIsOneLookup(account, snapshots, chunks, results, snapshots[0].records);
    }
  }
}
