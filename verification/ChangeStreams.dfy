/** Following `Foo/changes` until caught up (src/jmap/sync/changes.py, section 5.2 of RFC 8620). */
module ChangeStreams {
  import opened Wrappers
  import opened Sequences

  // A page of changes; an empty newState means the server left it out.
  datatype Page = Page(
    created: seq<string>, updated: seq<string>, destroyed: seq<string>, newState: string, hasMore: bool)

  datatype Reply = Fetched(page: Page) | CannotCalculate | FetchFailed

  datatype WalkError = ResyncRequired(since: string) | Stuck(state: string) | Failed

  // What the server answers to the n-th fetch of a walk, given the state it names.
  type Server = (nat, string) -> Reply

  function Next(page: Page, since: string): string {
    if page.newState == "" then since else page.newState
  }

  /** Every state the server answers with is one of `states`. */
  ghost predicate AnswersWithin(server: Server, states: set<string>) {
    forall n, since :: server(n, since).Fetched? && server(n, since).page.newState != "" ==>
      server(n, since).page.newState in states
  }

  // ---------------------------------------------------------------------------
  // Where the cursor is kept (src/jmap/sync/state.py)
  // ---------------------------------------------------------------------------

  class StateStore {
    var states: map<string, string>

    constructor (initial: map<string, string>)
      ensures states == initial
    {
      states := initial;
    }

    method Set(key: string, state: string)
      modifies this
      ensures states == old(states)[key := state]
    {
      states := states[key := state];
    }
  }

  // ---------------------------------------------------------------------------
  // Accumulating pages
  // ---------------------------------------------------------------------------

  class ChangeSet {
    var created: seq<string>
    var updated: seq<string>
    var destroyed: seq<string>
    var newState: string
    var pages: nat
    var seenCreated: set<string>
    var seenUpdated: set<string>
    var seenDestroyed: set<string>

    ghost predicate Valid()
      reads this
    {
      && (forall id :: id in seenCreated <==> id in created)
      && (forall id :: id in seenUpdated <==> id in updated)
      && (forall id :: id in seenDestroyed <==> id in destroyed)
    }

    /** The set holds exactly the ids of these pages, each list in first-seen order. */
    ghost predicate Holds(pages: seq<Page>)
      reads this
    {
      && created == Dedup(AllCreated(pages))
      && updated == Dedup(AllUpdated(pages))
      && destroyed == Dedup(AllDestroyed(pages))
      && this.pages == |pages|
    }

    constructor ()
      ensures Valid() && Holds([])
    {
      created, updated, destroyed, newState, pages := [], [], [], "", 0;
      seenCreated, seenUpdated, seenDestroyed := {}, {}, {};
    }

    /** Folds one page into the set. */
    method Absorb(page: Page, ghost before: seq<Page>)
      requires Valid() && Holds(before)
      modifies this
      ensures Valid() && Holds(before + [page])
      ensures newState == if page.newState == "" then old(newState) else page.newState
    {
      assert (before + [page])[..|before|] == before;
      created, seenCreated := AbsorbIds(created, seenCreated, page.created, AllCreated(before));
      updated, seenUpdated := AbsorbIds(updated, seenUpdated, page.updated, AllUpdated(before));
      destroyed, seenDestroyed := AbsorbIds(destroyed, seenDestroyed, page.destroyed, AllDestroyed(before));
      if page.newState != "" { newState := page.newState; }
      pages := pages + 1;
    }
  }

  method AbsorbIds(listed: seq<string>, seen: set<string>, ids: seq<string>, ghost before: seq<string>)
    returns (listed': seq<string>, seen': set<string>)
    requires listed == Dedup(before) && forall id :: id in seen <==> id in listed
    ensures listed' == Dedup(before + ids) && forall id :: id in seen' <==> id in listed'
  {
    listed', seen' := listed, seen;
    assert before + ids[..0] == before;
    for i := 0 to |ids|
      invariant listed' == Dedup(before + ids[..i])
      invariant forall id :: id in seen' <==> id in listed'
    {
      DedupSnoc(before + ids[..i], ids[i]);
      assert before + ids[..i + 1] == before + ids[..i] + [ids[i]];
      if ids[i] !in seen' {
        seen' := seen' + {ids[i]};
        listed' := listed' + [ids[i]];
      }
    }
    assert ids[..|ids|] == ids;
  }

  function AllCreated(pages: seq<Page>): seq<string> {
    if pages == [] then [] else AllCreated(pages[..|pages| - 1]) + pages[|pages| - 1].created
  }

  function AllUpdated(pages: seq<Page>): seq<string> {
    if pages == [] then [] else AllUpdated(pages[..|pages| - 1]) + pages[|pages| - 1].updated
  }

  function AllDestroyed(pages: seq<Page>): seq<string> {
    if pages == [] then [] else AllDestroyed(pages[..|pages| - 1]) + pages[|pages| - 1].destroyed
  }

  // ---------------------------------------------------------------------------
  // A walk
  // ---------------------------------------------------------------------------

  /** The state a walk resumes from after these pages. */
  function Reached(start: string, pages: seq<Page>): string {
    if pages == [] then start else Next(pages[|pages| - 1], Reached(start, pages[..|pages| - 1]))
  }

  ghost predicate AllMore(pages: seq<Page>) {
    forall k :: 0 <= k < |pages| ==> pages[k].hasMore
  }

  /** The pages are what the server answered, one after the other, and each but the last said there was more. */
  ghost predicate IsWalk(server: Server, start: string, pages: seq<Page>) {
    pages == []
    || (var init := pages[..|pages| - 1];
        && IsWalk(server, start, init) && AllMore(init)
        && server(|init|, Reached(start, init)) == Fetched(pages[|pages| - 1]))
  }

  /** The states a walk has resumed from, the one it is at included. */
  function Visited(start: string, pages: seq<Page>): set<string> {
    if pages == [] then {start} else Visited(start, pages[..|pages| - 1]) + {Reached(start, pages)}
  }

  /** Every page led to a state the walk had not resumed from. */
  ghost predicate NeverBack(start: string, pages: seq<Page>) {
    pages == []
    || (NeverBack(start, pages[..|pages| - 1]) && Reached(start, pages) !in Visited(start, pages[..|pages| - 1]))
  }

  lemma {:induction false} VisitedBySteps(start: string, pages: seq<Page>)
    requires NeverBack(start, pages)
    ensures |Visited(start, pages)| == |pages| + 1
  {
    if pages != [] { VisitedBySteps(start, pages[..|pages| - 1]); }
  }

  lemma {:induction false} SubsetSize(small: set<string>, large: set<string>)
    requires small <= large
    ensures |small| <= |large|
    decreases small
  {
    if small != {} {
      var x :| x in small;
      SubsetSize(small - {x}, large - {x});
    }
  }

  /** A walk that never went back has fetched fewer pages than there are states. */
  lemma WalkIsShort(start: string, pages: seq<Page>, states: set<string>)
    requires NeverBack(start, pages) && Visited(start, pages) <= states
    ensures |pages| < |states|
  {
    VisitedBySteps(start, pages);
    SubsetSize(Visited(start, pages), states);
  }

  /** The walk of these pages cannot go on, for this reason. */
  ghost predicate StopsWith(server: Server, start: string, pages: seq<Page>, error: WalkError) {
    var since := Reached(start, pages);
    && IsWalk(server, start, pages)
    && AllMore(pages)
    && match server(|pages|, since)
       case CannotCalculate => error == ResyncRequired(since)
       case FetchFailed => error == Failed
       case Fetched(page) =>
         page.hasMore && error == Stuck(Next(page, since)) && Next(page, since) in Visited(start, pages)
  }

  /** The walk of these pages is complete: the last one said there was no more. */
  ghost predicate Completes(server: Server, start: string, pages: seq<Page>) {
    pages != [] && IsWalk(server, start, pages) && !pages[|pages| - 1].hasMore
  }

  /** One more page on a walk. */
  lemma WalkOn(server: Server, start: string, pages: seq<Page>, page: Page)
    requires IsWalk(server, start, pages) && AllMore(pages) && NeverBack(start, pages)
    requires server(|pages|, Reached(start, pages)) == Fetched(page)
    ensures
      var longer, advanced := pages + [page], Next(page, Reached(start, pages));
      && IsWalk(server, start, longer) && Reached(start, longer) == advanced
      && Visited(start, longer) == Visited(start, pages) + {advanced}
      && (page.hasMore ==> AllMore(longer))
      && (advanced !in Visited(start, pages) ==> NeverBack(start, longer))
  {
    assert (pages + [page])[..|pages|] == pages;
  }

  /** A walk from `start`, its pages collected in one set. */
  method Collect(server: Server, start: string, ghost states: set<string>)
    returns (outcome: Outcome<WalkError>, changes: ChangeSet, since: string, fetches: nat, ghost pages: seq<Page>)
    requires AnswersWithin(server, states) && start in states
    ensures fresh(changes) && fetches <= |states|
    ensures outcome.Fail? ==> StopsWith(server, start, pages, outcome.error) && fetches == |pages| + 1
    ensures outcome.Pass? ==>
      Completes(server, start, pages) && changes.Holds(pages) && since == Reached(start, pages) && fetches == |pages|
  {
    pages, fetches, since := [], 0, start;
    changes := new ChangeSet();
    var visited := {since};
    while true
      invariant fresh(changes) && changes.Valid() && changes.Holds(pages)
      invariant since == Reached(start, pages) && visited == Visited(start, pages) <= states
      invariant IsWalk(server, start, pages) && NeverBack(start, pages)
      invariant AllMore(pages)
      invariant fetches == |pages|
      decreases |states| - |pages|
    {
      WalkIsShort(start, pages, states);
      var reply := server(fetches, since);
      fetches := fetches + 1;
      if !reply.Fetched? {
        outcome := Fail(if reply.CannotCalculate? then ResyncRequired(since) else Failed);
        return;
      }
      var page := reply.page;
      var advanced := Next(page, since);
      changes.Absorb(page, pages);
      if page.hasMore && advanced in visited { outcome := Fail(Stuck(advanced)); return; }
      WalkOn(server, start, pages, page);
      assert advanced in states by { assert server(fetches - 1, since).Fetched?; VisitedAt(start, pages); }
      pages := pages + [page];
      visited := visited + {advanced};
      since := advanced;
      if !page.hasMore { outcome := Pass; return; }
    }
  }

  lemma VisitedAt(start: string, pages: seq<Page>)
    ensures Reached(start, pages) in Visited(start, pages)
  {}

  /**
   * Collects every outstanding change. The stored cursor moves once, to where the walk
   * ended, or not at all; and the walk stops within as many fetches as the server has states.
   */
  method CatchUp(server: Server, store: StateStore, key: string, ghost states: set<string>)
    returns (outcome: Result<ChangeSet, WalkError>, fetches: nat, ghost pages: seq<Page>)
    requires AnswersWithin(server, states)
    requires key in store.states ==> store.states[key] in states
    modifies store
    ensures fetches <= |states|
    ensures key !in old(store.states) ==> outcome == Failure(ResyncRequired("")) && fetches == 0
    ensures key in old(store.states) && outcome.Failure? ==>
      StopsWith(server, old(store.states)[key], pages, outcome.error)
    ensures outcome.Failure? ==> store.states == old(store.states)
    ensures outcome.Success? ==>
      && key in old(store.states)
      && Completes(server, old(store.states)[key], pages) && fetches == |pages|
      && outcome.value.Holds(pages)
      && store.states == old(store.states)[key := Reached(old(store.states)[key], pages)]
  {
    pages, fetches := [], 0;
    if key !in store.states { return Failure(ResyncRequired("")), fetches, pages; }
    var walked, changes, since;
    walked, changes, since, fetches, pages := Collect(server, store.states[key], states);
    if walked.Fail? { return Failure(walked.error), fetches, pages; }
    store.Set(key, since);
    return Success(changes), fetches, pages;
  }

  // ---------------------------------------------------------------------------
  // Page by page, with the consumer able to stop anywhere
  // ---------------------------------------------------------------------------

  // One run of the page generator: not fetching, about to fetch, or a page handed over.
  datatype Walking =
    | Ended
    | Fetching(since: string, visited: set<string>)
    | Holding(since: string, visited: set<string>, page: Page)

  // The persisted cursor, the run in progress, and every page ever handed over.
  datatype Progress = Progress(cursor: string, walking: Walking, delivered: seq<Page>)

  /** A run may start whenever none is going; a crash or an abandoned iterator ends it. */
  predicate Restarts(p: Progress, p': Progress) {
    || (p.walking.Ended? && p' == p.(walking := Fetching(p.cursor, {p.cursor})))
    || p' == p.(walking := Ended)
  }

  /** A fetch hands its page to the consumer, or fails and ends the run. */
  predicate Fetches(p: Progress, p': Progress, reply: Reply) {
    && p.walking.Fetching?
    && match reply
       case Fetched(page) =>
         p' == p.(walking := Holding(p.walking.since, p.walking.visited, page), delivered := p.delivered + [page])
       case _ => p' == p.(walking := Ended)
  }

  /** The consumer came back for more: only now does the cursor move, unless the server leads back. */
  predicate Resumes(p: Progress, p': Progress) {
    && p.walking.Holding?
    && var page, visited := p.walking.page, p.walking.visited;
       var advanced := Next(page, p.walking.since);
       p' == if page.hasMore && advanced in visited then p.(walking := Ended)
             else p.(cursor := advanced,
                     walking := if page.hasMore then Fetching(advanced, visited + {advanced}) else Ended)
  }

  // The order of changes on the server; a state is a position in it.
  datatype History = History(changes: seq<string>, position: string -> nat)

  predicate Lists(page: Page, id: string) {
    id in page.created || id in page.updated || id in page.destroyed
  }

  /** A page answered from `since` lists every change up to the state it leads to. */
  ghost predicate Covers(history: History, since: string, page: Page) {
    var from, to := history.position(since), history.position(Next(page, since));
    from <= to <= |history.changes|
    && forall i :: from <= i < to ==> Lists(page, history.changes[i])
  }

  ghost predicate ProgressStep(history: History, p: Progress, p': Progress) {
    || Restarts(p, p')
    || (exists reply :: Fetches(p, p', reply)
          && (reply.Fetched? ==> Covers(history, p.walking.since, reply.page)))
    || Resumes(p, p')
  }

  ghost predicate IsRun(history: History, run: seq<Progress>) {
    && run != [] && run[0].walking.Ended?
    && forall i :: 0 <= i < |run| - 1 ==> ProgressStep(history, run[i], run[i + 1])
  }

  ghost predicate HandedOver(delivered: seq<Page>, id: string) {
    exists k :: 0 <= k < |delivered| && Lists(delivered[k], id)
  }

  ghost predicate ProgressInv(history: History, seed: nat, p: Progress) {
    && seed <= history.position(p.cursor)
    && (history.position(p.cursor) <= |history.changes| || history.position(p.cursor) == seed)
    && (forall i :: seed <= i < history.position(p.cursor) && i < |history.changes| ==>
          HandedOver(p.delivered, history.changes[i]))
    && (p.walking.Fetching? ==> p.walking.since == p.cursor)
    && (p.walking.Holding? ==>
          && p.walking.since == p.cursor
          && p.delivered != [] && p.delivered[|p.delivered| - 1] == p.walking.page
          && Covers(history, p.cursor, p.walking.page))
  }

  lemma StepKeepsInv(history: History, seed: nat, p: Progress, p': Progress)
    requires ProgressInv(history, seed, p) && ProgressStep(history, p, p')
    ensures ProgressInv(history, seed, p')
    ensures p.delivered <= p'.delivered
  {
    forall i | seed <= i < history.position(p'.cursor) && i < |history.changes|
      ensures HandedOver(p'.delivered, history.changes[i])
    {
      if i < history.position(p.cursor) {
        assert HandedOver(p.delivered, history.changes[i]);
        var k :| 0 <= k < |p.delivered| && Lists(p.delivered[k], history.changes[i]);
        assert p'.delivered[k] == p.delivered[k];
      } else {
        assert Lists(p.delivered[|p.delivered| - 1], history.changes[i]);
      }
    }
  }

  /**
   * Over any sequence of runs, interrupted anywhere, every change between the seed and the
   * stored cursor has been handed to the consumer.
   */
  lemma {:induction false} NoGap(history: History, run: seq<Progress>, n: nat)
    requires IsRun(history, run) && n < |run|
    ensures ProgressInv(history, history.position(run[0].cursor), run[n])
  {
    if n > 0 {
      NoGap(history, run, n - 1);
      assert ProgressStep(history, run[n - 1], run[n - 1 + 1]);
      StepKeepsInv(history, history.position(run[0].cursor), run[n - 1], run[n]);
    }
  }

  ghost predicate AnswersHonestly(history: History, server: Server) {
    forall n, since :: server(n, since).Fetched? ==> Covers(history, since, server(n, since).page)
  }

  /** What `catch_up` collects misses no change between the cursor it started from and the one it stores. */
  lemma {:induction false} WalkCovers(history: History, server: Server, start: string, pages: seq<Page>, i: nat)
    requires AnswersHonestly(history, server) && IsWalk(server, start, pages)
    requires history.position(start) <= i < history.position(Reached(start, pages)) && i < |history.changes|
    ensures HandedOver(pages, history.changes[i])
  {
    if pages != [] {
      var init, last := pages[..|pages| - 1], pages[|pages| - 1];
      var since := Reached(start, init);
      assert server(|init|, since).Fetched? && Covers(history, since, last);
      if i < history.position(since) {
        WalkCovers(history, server, start, init, i);
        var k :| 0 <= k < |init| && Lists(init[k], history.changes[i]);
        assert Lists(pages[k], history.changes[i]);
      } else {
        assert Lists(pages[|pages| - 1], history.changes[i]);
      }
    }
  }

  /** The generator of `pages`: each call is the consumer coming back for the next page. */
  class PageRun {
    const store: StateStore
    const key: string
    var since: string
    var visited: set<string>
    var held: Option<Page>
    var over: bool
    var fetches: nat

    function Walk(): Walking
      reads this
    {
      if over then Ended else if held.Some? then Holding(since, visited, held.value) else Fetching(since, visited)
    }

    ghost predicate Valid(states: set<string>)
      reads this
    {
      && visited <= states && since in states
      && (held.Some? && held.value.newState != "" ==> held.value.newState in states)
      && (!over && held.None? ==> fetches + 1 == |visited|)
      && (!over && held.Some? ==> fetches == |visited|)
      && (over ==> fetches <= |visited|)
    }

    constructor (store: StateStore, key: string, ghost states: set<string>)
      requires key in store.states && store.states[key] in states
      ensures this.store == store && this.key == key
      ensures Walk() == Fetching(store.states[key], {store.states[key]})
      ensures Valid(states) && fetches == 0
    {
      this.store, this.key := store, key;
      since, visited, held, over, fetches := store.states[key], {store.states[key]}, None, false, 0;
    }

    /** Moves the cursor past the page handed over before, unless the server leads back. */
    method Advance(ghost states: set<string>, ghost delivered: seq<Page>) returns (error: Option<WalkError>)
      requires Valid(states) && key in store.states && !over && held.Some?
      modifies this, store
      ensures Valid(states) && fetches == old(fetches) && held.None? == !over
      ensures key in store.states && store.states == old(store.states)[key := store.states[key]]
      ensures Resumes(Progress(old(store.states)[key], old(Walk()), delivered),
                      Progress(store.states[key], Walk(), delivered))
      ensures error.Some? ==> over
    {
      var advanced := Next(held.value, since);
      if held.value.hasMore && advanced in visited {
        over := true;
        return Some(Stuck(advanced));
      }
      SubsetSize(visited, visited + {advanced});
      visited := visited + {advanced};
      since := advanced;
      over := !held.value.hasMore;
      if !over { held := None; }
      store.Set(key, since);
      return None;
    }

    /** Asks the server for a page and hands it over. */
    method Fetch(server: Server, ghost states: set<string>, ghost cursor: string, ghost delivered: seq<Page>)
      returns (page: Result<Page, WalkError>, ghost delivered': seq<Page>)
      requires Valid(states) && AnswersWithin(server, states) && Walk().Fetching?
      modifies this
      ensures Valid(states) && fetches == old(fetches) + 1
      ensures Fetches(Progress(cursor, old(Walk()), delivered), Progress(cursor, Walk(), delivered'),
                      server(old(fetches), old(since)))
      ensures page.Success? <==> Walk().Holding?
      ensures delivered' == if page.Success? then delivered + [page.value] else delivered
    {
      var reply := server(fetches, since);
      fetches := fetches + 1;
      delivered' := delivered;
      if reply.Fetched? {
        held := Some(reply.page);
        delivered' := delivered + [reply.page];
        return Success(reply.page), delivered';
      }
      over := true;
      return Failure(if reply.CannotCalculate? then ResyncRequired(since) else Failed), delivered';
    }

    /**
     * The consumer comes back: the cursor moves past the page it had, if any, and the next
     * is fetched, never more often than there are states. None ends the iteration.
     */
    method NextPage(server: Server, ghost states: set<string>, ghost delivered: seq<Page>)
      returns (page: Result<Option<Page>, WalkError>, ghost middle: Progress, ghost delivered': seq<Page>)
      requires Valid(states) && AnswersWithin(server, states) && key in store.states && !over
      modifies this, store
      ensures Valid(states) && fetches <= |states|
      ensures key in store.states && store.states == old(store.states)[key := store.states[key]]
      ensures
        var before := Progress(old(store.states)[key], old(Walk()), delivered);
        var after := Progress(store.states[key], Walk(), delivered');
        && (if old(held).Some? then Resumes(before, middle) else middle == before)
        && (if middle.walking.Fetching?
            then Fetches(middle, after, server(old(fetches), middle.walking.since)) else after == middle)
      ensures page.Success? && page.value.Some? <==> Walk().Holding?
    {
      delivered' := delivered;
      if held.Some? {
        var stuck := Advance(states, delivered);
        middle := Progress(store.states[key], Walk(), delivered);
        SubsetSize(visited, states);
        if stuck.Some? { return Failure(stuck.value), middle, delivered'; }
        if over { return Success(None), middle, delivered'; }
      }
      middle := Progress(store.states[key], Walk(), delivered);
      SubsetSize(visited, states);
      var fetched;
      fetched, delivered' := Fetch(server, states, store.states[key], delivered);
      page := if fetched.Success? then Success(Some(fetched.value)) else Failure(fetched.error);
    }
  }
}
