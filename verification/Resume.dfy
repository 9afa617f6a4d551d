/**
 * Carrying the resume cursor over reconnects (src/jmap/push/eventsource.py,
 * src/jmap/push/listener.py, section 7.3 of RFC 8620).
 */
module Resume {
  import opened Wrappers
  import opened Sse
  import Sequences

  // ---------------------------------------------------------------------------
  // Moments of dispatch
  // ---------------------------------------------------------------------------

  // One blank line of a stream: the id then in force, and the event it delivered, if any.
  datatype Moment = Moment(id: string, event: Option<Event>)

  function MomentsOf(core: Core, lines: seq<string>): seq<Moment> {
    if lines == [] then []
    else
      var init, last := lines[..|lines| - 1], lines[|lines| - 1];
      var (after, event) := Consume(ConsumeAll(core, init).core, last);
      MomentsOf(core, init) + (if last == "" then [Moment(after.lastEventId, event)] else [])
  }

  function Moments(cursor: string, text: string): seq<Moment> {
    MomentsOf(Opened(cursor), Lines(StripMark(text)).lines)
  }

  function EventsIn(moments: seq<Moment>): seq<Event> {
    if moments == [] then []
    else
      var last := moments[|moments| - 1];
      EventsIn(moments[..|moments| - 1]) + (if last.event.Some? then [last.event.value] else [])
  }

  lemma {:induction false} EventsInConcat(a: seq<Moment>, b: seq<Moment>)
    ensures EventsIn(a + b) == EventsIn(a) + EventsIn(b)
    decreases |b|
  {
    if b == [] {
      assert a + b == a;
    } else {
      assert (a + b)[..|a + b| - 1] == a + b[..|b| - 1];
      EventsInConcat(a, b[..|b| - 1]);
    }
  }

  lemma {:induction false} MomentsConcat(core: Core, first: seq<string>, rest: seq<string>)
    ensures MomentsOf(core, first + rest) == MomentsOf(core, first) + MomentsOf(ConsumeAll(core, first).core, rest)
    decreases |rest|
  {
    if rest == [] {
      assert first + rest == first;
    } else {
      var init := rest[..|rest| - 1];
      assert (first + rest)[..|first + rest| - 1] == first + init;
      MomentsConcat(core, first, init);
      ConsumeConcat(core, first, init);
    }
  }

  /** More text only adds moments. */
  lemma MomentsGrow(cursor: string, text: string, chunk: string)
    ensures Moments(cursor, text) <= Moments(cursor, text + chunk)
  {
    LinesOfMore(text, chunk);
    var was := Lines(StripMark(text));
    var more := Lines(was.rest + NewText(text, chunk));
    MomentsConcat(Opened(cursor), was.lines, more.lines);
  }

  lemma MomentsPrefix(cursor: string, text: string, meant: string)
    requires text <= meant
    ensures Moments(cursor, text) <= Moments(cursor, meant)
  {
    assert text + meant[|text|..] == meant;
    MomentsGrow(cursor, text, meant[|text|..]);
  }

  lemma MomentsAccount(core: Core, lines: seq<string>)
    ensures EventsIn(MomentsOf(core, lines)) == ConsumeAll(core, lines).events
    ensures ConsumeAll(core, lines).core.lastEventId
         == if MomentsOf(core, lines) == [] then core.lastEventId
            else MomentsOf(core, lines)[|MomentsOf(core, lines)| - 1].id
    ensures forall i :: 0 <= i < |MomentsOf(core, lines)| && MomentsOf(core, lines)[i].event.Some? ==>
              MomentsOf(core, lines)[i].event.value.lastEventId == MomentsOf(core, lines)[i].id
  {
    MomentsDeliver(core, lines);
    MomentsEnd(core, lines);
    forall i | 0 <= i < |MomentsOf(core, lines)| && MomentsOf(core, lines)[i].event.Some?
      ensures MomentsOf(core, lines)[i].event.value.lastEventId == MomentsOf(core, lines)[i].id
    {
      MomentsCarryIds(core, lines, i);
    }
  }

  lemma {:induction false} MomentsEnd(core: Core, lines: seq<string>)
    ensures ConsumeAll(core, lines).core.lastEventId
         == if MomentsOf(core, lines) == [] then core.lastEventId
            else MomentsOf(core, lines)[|MomentsOf(core, lines)| - 1].id
  {
    if lines != [] {
      var init, last := lines[..|lines| - 1], lines[|lines| - 1];
      MomentsEnd(core, init);
      if last != "" { FieldsKeepTheId(ConsumeAll(core, init).core, last); }
    }
  }

  lemma FieldsKeepTheId(core: Core, line: string)
    requires line != ""
    ensures Consume(core, line).0.lastEventId == core.lastEventId && Consume(core, line).1 == None
  {}

  lemma {:induction false} MomentsCarryIds(core: Core, lines: seq<string>, i: nat)
    requires i < |MomentsOf(core, lines)|
    ensures var moment := MomentsOf(core, lines)[i];
      moment.event.Some? ==> moment.event.value.lastEventId == moment.id
  {
    var init := lines[..|lines| - 1];
    if i < |MomentsOf(core, init)| { MomentsCarryIds(core, init, i); }
  }

  lemma {:induction false} MomentsDeliver(core: Core, lines: seq<string>)
    ensures EventsIn(MomentsOf(core, lines)) == ConsumeAll(core, lines).events
  {
    if lines != [] {
      var init, last := lines[..|lines| - 1], lines[|lines| - 1];
      MomentsDeliver(core, init);
      var (after, event) := Consume(ConsumeAll(core, init).core, last);
      EventsInConcat(MomentsOf(core, init), if last == "" then [Moment(after.lastEventId, event)] else []);
      if last == "" {
        var one := [Moment(after.lastEventId, event)];
        assert one[..0] == [];
        assert EventsIn(one) == if event.Some? then [event.value] else [];
      }
    }
  }

  /** A position just after the moment that delivered event `k`. */
  lemma {:induction false} MomentOfEvent(moments: seq<Moment>, k: nat) returns (n: nat)
    requires k < |EventsIn(moments)|
    ensures 1 <= n <= |moments|
    ensures moments[n - 1].event == Some(EventsIn(moments)[k])
    ensures EventsIn(moments[..n]) == EventsIn(moments)[..k + 1]
  {
    var init, last := moments[..|moments| - 1], moments[|moments| - 1];
    if k < |EventsIn(init)| {
      n := MomentOfEvent(init, k);
      assert moments[..n] == init[..n];
    } else {
      n := |moments|;
      assert moments[..n] == moments;
    }
  }

  // ---------------------------------------------------------------------------
  // The client
  // ---------------------------------------------------------------------------

  predicate IsVisible(c: char) {
    '!' <= c <= '~'
  }

  /** An id that can be sent back as a header value: visible ASCII, blanks only inside. */
  predicate Resumable(id: string) {
    id == ""
    || (&& IsVisible(id[0]) && IsVisible(id[|id| - 1])
        && forall i :: 0 <= i < |id| ==> IsVisible(id[i]) || id[i] == ' ' || id[i] == '\t')
  }

  // What interpreting one event comes to.
  datatype Payload = StateChange | CalendarAlert | Ping | Unrecognised | Malformed

  type Interpreter = (string, string) -> Payload

  datatype FeedEnd = Complete | Abandoned | Raised | Overflowed

  /**
   * How far a connection has got: `taken` are the events of its first `n` moments, and the
   * cursor is the one it was origin with or the id in force at one of those moments.
   */
  ghost predicate Reached(origin: string, text: string, n: nat, taken: seq<Event>, cursor: string) {
    ReachedIn(Moments(origin, text), origin, n, taken, cursor)
  }

  ghost predicate ReachedIn(moments: seq<Moment>, origin: string, n: nat, taken: seq<Event>, cursor: string) {
    && n <= |moments|
    && EventsIn(moments[..n]) == taken
    && (cursor == origin || exists i :: 0 <= i < n && moments[i].id == cursor)
    && Resumable(cursor)
  }

  /** Every event carries the id in force when it was delivered. */
  ghost predicate CarryIds(moments: seq<Moment>) {
    forall i :: 0 <= i < |moments| && moments[i].event.Some? ==> moments[i].event.value.lastEventId == moments[i].id
  }

  /** The payload of an event did not parse, and its id was tracked all the same. */
  predicate PassedOver(event: Event, interpret: Interpreter, cursor: string) {
    interpret(event.kind, event.data) == Malformed && (Resumable(event.lastEventId) ==> cursor == event.lastEventId)
  }

  predicate EndsMalformed(taken: seq<Event>, interpret: Interpreter, cursor: string) {
    taken != [] && PassedOver(taken[|taken| - 1], interpret, cursor)
  }

  class EventStream {
    const parser: SseParser
    const closeAfterState: bool
    var closedAfterState: bool
    var cursor: string

    constructor (closeAfterState: bool, lastEventId: string)
      requires Resumable(lastEventId)
      ensures fresh(parser) && parser.State() == Parsed(lastEventId, "")
      ensures cursor == lastEventId && !closedAfterState && this.closeAfterState == closeAfterState
      ensures Reached(lastEventId, "", 0, [], cursor)
    {
      this.closeAfterState := closeAfterState;
      closedAfterState := false;
      cursor := "";
      parser := new SseParser(lastEventId);
      new;
      Track(lastEventId);
    }

    /** Adopts an id as cursor, if it could be sent back. */
    method Track(candidate: string)
      modifies `cursor
      ensures cursor == Adopted(candidate, old(cursor))
    {
      if Resumable(candidate) { cursor := candidate; }
    }

    /** Tracks an event's id, then reads its payload; a kind not known is passed over. */
    method TakeEvent(event: Event, interpret: Interpreter) returns (reading: seq<Payload>, malformed: bool)
      modifies `cursor, `closedAfterState
      ensures cursor == Adopted(event.lastEventId, old(cursor)) && reading == Reading(event, interpret)
      ensures closedAfterState <==> old(closedAfterState) || (closeAfterState && StateChange in reading)
      ensures malformed <==> interpret(event.kind, event.data) == Malformed
    {
      Track(event.lastEventId);
      var payload := interpret(event.kind, event.data);
      malformed, reading := payload == Malformed, [];
      if !malformed && payload != Unrecognised {
        if payload == StateChange && closeAfterState { closedAfterState := true; }
        reading := [payload];
      }
    }

    /** Hands on event `k` of the connection. */
    method HandOne(event: Event, interpret: Interpreter, handed: seq<Payload>,
                   ghost moments: seq<Moment>, ghost origin: string, ghost n: nat, ghost k: nat, ghost first: nat,
                   ghost was: bool)
      returns (more: seq<Payload>, malformed: bool, ghost at: nat)
      requires CarryIds(moments) && first <= k < |EventsIn(moments)| && EventsIn(moments)[k] == event
      requires ReachedIn(moments, origin, n, EventsIn(moments)[..k], cursor)
      requires Told(EventsIn(moments), first, k, interpret, handed)
      requires closedAfterState <==> was || (closeAfterState && StateChange in handed)
      modifies `cursor, `closedAfterState
      ensures malformed ==> EndsMalformed(EventsIn(moments)[..k + 1], interpret, cursor)
      ensures n <= at && ReachedIn(moments, origin, at, EventsIn(moments)[..k + 1], cursor)
      ensures Told(EventsIn(moments), first, k + 1, interpret, more)
      ensures closedAfterState <==> was || (closeAfterState && StateChange in more)
    {
      at := ReachEvent(moments, origin, k, n, cursor);
      var reading;
      reading, malformed := TakeEvent(event, interpret);
      ToldOneMore(EventsIn(moments), first, k, interpret, handed);
      more := handed + reading;
    }

    /** Takes the events of a chunk one by one, tracking each id before handing the event on. */
    method HandOn(events: seq<Event>, interpret: Interpreter, patience: nat,
                  ghost moments: seq<Moment>, ghost origin: string, ghost n: nat, ghost taken: seq<Event>)
      returns (handed: seq<Payload>, end: FeedEnd, ghost n': nat, ghost taken': seq<Event>)
      requires CarryIds(moments) && EventsIn(moments) == taken + events
      requires ReachedIn(moments, origin, n, taken, cursor)
      modifies `cursor, `closedAfterState
      ensures n <= n' && taken <= taken' && ReachedIn(moments, origin, n', taken', cursor)
      ensures Readings(taken', interpret) == Readings(taken, interpret) + handed
      ensures closedAfterState <==> old(closedAfterState) || (closeAfterState && StateChange in handed)
      ensures end.Complete? ==> taken' == EventsIn(moments)
      ensures end.Raised? ==> EndsMalformed(taken', interpret, cursor)
      ensures end != Overflowed
    {
      handed, end, n', taken' := [], Complete, n, taken;
      ghost var all, first, was := EventsIn(moments), |taken|, closedAfterState;
      ToldNothing(all, first, interpret);
      assert all[..first] == taken;
      for k := 0 to |events|
        invariant n <= n'
        invariant ReachedIn(moments, origin, n', all[..first + k], cursor)
        invariant Told(all, first, first + k, interpret, handed)
        invariant closedAfterState <==> was || (closeAfterState && StateChange in handed)
      {
        var malformed;
        handed, malformed, n' := HandOne(events[k], interpret, handed, moments, origin, n', first + k, first, was);
        if malformed || |handed| > patience {
          end := if malformed then Raised else Abandoned;
          taken' := all[..first + k + 1];
          return;
        }
      }
      taken' := all;
      assert all[..first + |events|] == all;
    }

    /**
     * Consumes a chunk, handing on what it completes until `patience` runs out: that is a
     * consumer that stops listening. Ends early on a payload that does not parse, too.
     */
    method Feed(chunk: string, interpret: Interpreter, patience: nat,
                ghost origin: string, ghost text: string, ghost n: nat, ghost taken: seq<Event>)
      returns (handed: seq<Payload>, end: FeedEnd, ghost n': nat, ghost taken': seq<Event>)
      requires parser.State() == Parsed(origin, text)
      requires n == |Moments(origin, text)| && Reached(origin, text, n, taken, cursor)
      modifies this, parser
      ensures end.Complete? ==>
        parser.State() == Parsed(origin, text + chunk) && n' == |Moments(origin, text + chunk)|
      ensures n <= n' && taken <= taken'
      ensures Reached(origin, text + chunk, n', taken', cursor)
      ensures Readings(taken', interpret) == Readings(taken, interpret) + handed
      ensures closedAfterState <==> old(closedAfterState) || (closeAfterState && StateChange in handed)
      ensures end.Raised? ==> EndsMalformed(taken', interpret, cursor)
      ensures end.Overflowed? <==> Overflows(origin, text, chunk)
    {
      handed, end, n', taken' := [], Overflowed, n, taken;
      ReachedGrows(origin, text, chunk, n, taken, cursor);
      var events, overflow := parser.Feed(chunk, origin, text);
      if overflow { return; }
      ghost var moments := Moments(origin, text + chunk);
      MomentsAccount(Opened(origin), Lines(StripMark(text + chunk)).lines);
      handed, end, n', taken' := HandOn(events, interpret, patience, moments, origin, n, taken);
      if end.Complete? {
        ReachEnd(origin, text + chunk, n', taken', cursor);
        n' := |Moments(origin, text + chunk)|;
        Track(parser.lastEventId);
      }
    }
  }

  /** What a consumer is handed for these events: those of a kind it does not know are passed over. */
  function Readings(events: seq<Event>, interpret: Interpreter): seq<Payload> {
    if events == [] then []
    else
      Readings(events[..|events| - 1], interpret) + Reading(events[|events| - 1], interpret)
  }

  function Reading(event: Event, interpret: Interpreter): seq<Payload> {
    var payload := interpret(event.kind, event.data);
    if payload == Unrecognised || payload == Malformed then [] else [payload]
  }

  /** `handed` is what the events from `first` up to `k` come to. */
  ghost predicate Told(all: seq<Event>, first: nat, k: nat, interpret: Interpreter, handed: seq<Payload>)
    requires first <= k <= |all|
  {
    Readings(all[..k], interpret) == Readings(all[..first], interpret) + handed
  }

  lemma ToldNothing(all: seq<Event>, first: nat, interpret: Interpreter)
    requires first <= |all|
    ensures Told(all, first, first, interpret, [])
  {
    assert Readings(all[..first], interpret) + [] == Readings(all[..first], interpret);
  }

  lemma ToldOneMore(all: seq<Event>, first: nat, k: nat, interpret: Interpreter, handed: seq<Payload>)
    requires first <= k < |all| && Told(all, first, k, interpret, handed)
    ensures Told(all, first, k + 1, interpret, handed + Reading(all[k], interpret))
  {
    assert all[..k + 1][..k] == all[..k];
    var before, reading := Readings(all[..first], interpret), Reading(all[k], interpret);
    assert (before + handed) + reading == before + (handed + reading);
  }

  function Adopted(candidate: string, cursor: string): string {
    if Resumable(candidate) then candidate else cursor
  }

  lemma ReachedGrows(origin: string, text: string, chunk: string, n: nat, taken: seq<Event>, cursor: string)
    requires Reached(origin, text, n, taken, cursor) && n == |Moments(origin, text)|
    ensures Reached(origin, text + chunk, n, taken, cursor)
    ensures taken == Events(origin, text)
  {
    MomentsGrow(origin, text, chunk);
    var before, moments := Moments(origin, text), Moments(origin, text + chunk);
    assert moments[..n] == before && before[..n] == before;
    MomentsAccount(Opened(origin), Lines(StripMark(text)).lines);
  }

  /** Taking one more event, and tracking its id. */
  lemma ReachEvent(moments: seq<Moment>, origin: string, k: nat, n: nat, cursor: string) returns (at: nat)
    requires CarryIds(moments) && k < |EventsIn(moments)|
    requires ReachedIn(moments, origin, n, EventsIn(moments)[..k], cursor)
    ensures n <= at
    ensures ReachedIn(moments, origin, at, EventsIn(moments)[..k + 1],
                      Adopted(EventsIn(moments)[k].lastEventId, cursor))
  {
    at := MomentOfEvent(moments, k);
    PrefixOrder(moments, n, at, k);
    assert moments[at - 1].id == EventsIn(moments)[k].lastEventId;
  }

  /** The end of a chunk, where a bare id may have moved the parser past the last event. */
  lemma ReachEnd(origin: string, text: string, n: nat, taken: seq<Event>, cursor: string)
    requires Reached(origin, text, n, taken, cursor) && taken == Events(origin, text)
    ensures Reached(origin, text, |Moments(origin, text)|, taken,
                    Adopted(Parsed(origin, text).core.lastEventId, cursor))
  {
    var moments := Moments(origin, text);
    MomentsAccount(Opened(origin), Lines(StripMark(text)).lines);
    assert moments[..|moments|] == moments;
    assert moments != [] ==> moments[|moments| - 1].id == Parsed(origin, text).core.lastEventId;
  }

  /** A prefix that has delivered fewer events is the shorter one. */
  lemma PrefixOrder(moments: seq<Moment>, n: nat, at: nat, k: nat)
    requires n <= |moments| && at <= |moments|
    requires |EventsIn(moments[..n])| <= k && |EventsIn(moments[..at])| == k + 1
    ensures n <= at
  {
    if at < n {
      assert moments[..n] == moments[..at] + moments[at..n];
      EventsInConcat(moments[..at], moments[at..n]);
    }
  }

  // ---------------------------------------------------------------------------
  // The listener
  // ---------------------------------------------------------------------------

  const MIN_RECONNECT_MILLIS := 100
  const DEFAULT_RECONNECT_MILLIS := 3000
  const MAX_RECONNECT_MILLIS := 600_000
  const HEALTHY_CONNECTION_MILLIS := 5000

  function Max(a: int, b: int): int {
    if a >= b then a else b
  }

  function Min(a: int, b: int): int {
    if a <= b then a else b
  }

  function Pow2(n: nat): nat {
    if n == 0 then 1 else 2 * Pow2(n - 1)
  }

  /** The wait before redialling, in milliseconds: doubled for each failure in a row, within a ceiling. */
  function Delay(retry: Option<nat>, failures: nat, atLeast: nat): int {
    var base := if retry.None? then DEFAULT_RECONNECT_MILLIS else Max(MIN_RECONNECT_MILLIS, retry.value);
    Min(MAX_RECONNECT_MILLIS, Max(base * Pow2(Min(failures, 16)), atLeast))
  }

  lemma {:induction false} Pow2Positive(n: nat)
    ensures Pow2(n) >= 1
  {
    if n > 0 { Pow2Positive(n - 1); }
  }

  /** Never faster than the floor nor slower than the ceiling, and another failure never shortens the wait. */
  lemma DelayBounds(retry: Option<nat>, failures: nat, atLeast: nat)
    ensures MIN_RECONNECT_MILLIS <= Delay(retry, failures, atLeast) <= MAX_RECONNECT_MILLIS
    ensures Delay(retry, failures, atLeast) <= Delay(retry, failures + 1, atLeast)
    ensures atLeast <= MAX_RECONNECT_MILLIS ==> atLeast <= Delay(retry, failures, atLeast)
  {
    var base := if retry.None? then DEFAULT_RECONNECT_MILLIS else Max(MIN_RECONNECT_MILLIS, retry.value);
    var now, next := Min(failures, 16), Min(failures + 1, 16);
    Pow2Positive(now);
    assert next == now || Pow2(next) == 2 * Pow2(now);
    Scaled(base, Pow2(now), Pow2(next));
  }

  lemma Scaled(base: nat, now: nat, next: nat)
    requires 1 <= now <= next
    ensures base <= base * now <= base * next
  {}

  class PushListener {
    const closeAfterState: bool
    var lastEventId: string
    var retry: Option<nat>
    var failures: nat

    constructor (closeAfterState: bool)
      ensures lastEventId == "" && retry.None? && failures == 0 && this.closeAfterState == closeAfterState
    {
      this.closeAfterState := closeAfterState;
      lastEventId, retry, failures := "", None, 0;
    }

    /** What outlives the stream: where it got to, and its pace if it set one. */
    method Absorb(stream: EventStream)
      modifies `lastEventId, `retry
      ensures lastEventId == stream.cursor
      ensures retry == if stream.parser.retry.Some? then stream.parser.retry else old(retry)
    {
      lastEventId := stream.cursor;
      if stream.parser.retry.Some? { retry := stream.parser.retry; }
    }

    /** The connection works: nothing has failed since. */
    method NoteDelivery()
      modifies `failures
      ensures failures == 0
    {
      failures := 0;
    }

    method NoteFailure()
      modifies `failures
      ensures failures == old(failures) + 1
    {
      failures := failures + 1;
    }

    /** A clean end proves the connection worked only if it delivered or lasted. */
    method NoteEnd(delivered: bool, lasted: nat)
      modifies `failures
      ensures failures == if delivered || lasted >= HEALTHY_CONNECTION_MILLIS then 0 else old(failures) + 1
    {
      if delivered || lasted >= HEALTHY_CONNECTION_MILLIS {
        NoteDelivery();
      } else {
        NoteFailure();
      }
    }

    /** One chunk of a connection. */
    method TakeChunk(stream: EventStream, chunk: string, interpret: Interpreter, patience: nat, handed: seq<Payload>,
                     ghost origin: string, ghost text: string, ghost n: nat, ghost taken: seq<Event>)
      returns (more: seq<Payload>, end: FeedEnd, ghost n': nat, ghost taken': seq<Event>)
      requires stream.parser.State() == Parsed(origin, text) && handed == Readings(taken, interpret)
      requires n == |Moments(origin, text)| && Reached(origin, text, n, taken, stream.cursor)
      modifies stream, stream.parser
      ensures end.Complete? ==>
        stream.parser.State() == Parsed(origin, text + chunk) && n' == |Moments(origin, text + chunk)|
      ensures Reached(origin, text + chunk, n', taken', stream.cursor) && more == Readings(taken', interpret)
      ensures end.Raised? ==> EndsMalformed(taken', interpret, stream.cursor)
    {
      more, end, n', taken' := stream.Feed(chunk, interpret, patience, origin, text, n, taken);
      more := handed + more;
    }

    /**
     * One connection: the chunks that arrived before it ended, however it ended. The cursor
     * it leaves is justified by what it took.
     */
    method Connect(chunks: seq<string>, interpret: Interpreter, patience: nat)
      returns (handed: seq<Payload>, end: FeedEnd, ghost text: string, ghost n: nat, ghost taken: seq<Event>)
      requires Resumable(lastEventId)
      modifies `lastEventId, `retry
      ensures Reached(old(lastEventId), text, n, taken, lastEventId)
      ensures text <= Sequences.Concat(chunks) && handed == Readings(taken, interpret)
      ensures end.Raised? ==> EndsMalformed(taken, interpret, lastEventId)
      ensures end.Complete? ==> text == Sequences.Concat(chunks) && n == |Moments(old(lastEventId), text)|
    {
      ghost var origin := lastEventId;
      var stream := new EventStream(closeAfterState, lastEventId);
      handed, end, text, n, taken := [], Complete, "", 0, [];
      var i := 0;
      assert Sequences.Concat(chunks[..0]) == "";
      while i < |chunks| && end.Complete?
        invariant i <= |chunks| && fresh(stream) && fresh(stream.parser) && lastEventId == origin
        invariant text == Sequences.Concat(chunks[..i]) && handed == Readings(taken, interpret)
        invariant Reached(origin, text, n, taken, stream.cursor)
        invariant end.Complete? ==> stream.parser.State() == Parsed(origin, text) && n == |Moments(origin, text)|
        invariant end.Raised? ==> EndsMalformed(taken, interpret, stream.cursor)
        decreases |chunks| - i
      {
        handed, end, n, taken := TakeChunk(stream, chunks[i], interpret, patience, handed, origin, text, n, taken);
        TextGrows(chunks, i);
        text := text + chunks[i];
        i := i + 1;
      }
      TextPrefix(chunks, i);
      Absorb(stream);
    }
  }

  lemma TextGrows(chunks: seq<string>, i: nat)
    requires i < |chunks|
    ensures Sequences.Concat(chunks[..i + 1]) == Sequences.Concat(chunks[..i]) + chunks[i]
  {
    assert chunks[..i + 1][..i] == chunks[..i];
  }

  lemma {:induction false} TextPrefix(chunks: seq<string>, i: nat)
    requires i <= |chunks|
    ensures Sequences.Concat(chunks[..i]) <= Sequences.Concat(chunks)
    ensures i == |chunks| ==> Sequences.Concat(chunks[..i]) == Sequences.Concat(chunks)
    decreases |chunks|
  {
    if i == |chunks| {
      assert chunks[..i] == chunks;
    } else {
      TextPrefix(chunks[..|chunks| - 1], i);
      assert chunks[..|chunks| - 1][..i] == chunks[..i];
    }
  }

  // ---------------------------------------------------------------------------
  // Against a server that replays
  // ---------------------------------------------------------------------------

  // One change the server pushes. Its id is its own.
  datatype Entry = Entry(id: string, kind: string, data: string)

  const PING := "ping"

  ghost predicate DistinctEntries(log: seq<Entry>) {
    forall i, j :: 0 <= i < j < |log| ==> log[i].id != log[j].id
  }

  predicate IsChange(moment: Moment) {
    moment.event.Some? && moment.event.value.kind != PING
  }

  predicate Carries(event: Event, entry: Entry) {
    event.kind == entry.kind && event.data == entry.data && event.lastEventId == entry.id
  }

  /**
   * A stream that resumes after entry `k`: its changes are the entries from `k + 1` on, each
   * under its own id; pings and bare ids leave the id of the last change sent in force.
   */
  ghost predicate Replays(log: seq<Entry>, k: nat, moments: seq<Moment>)
    decreases |moments|
  {
    && k < |log|
    && (moments == [] ||
        if IsChange(moments[0]) then
          k + 1 < |log| && moments[0].id == log[k + 1].id && Carries(moments[0].event.value, log[k + 1])
          && Replays(log, k + 1, moments[1..])
        else
          moments[0].id == log[k].id && Replays(log, k, moments[1..]))
  }

  function Changes(moments: seq<Moment>): nat
    decreases |moments|
  {
    if moments == [] then 0 else (if IsChange(moments[0]) then 1 else 0) + Changes(moments[1..])
  }

  // A connection as the server meant it, and how many of its moments got through.
  datatype Session = Session(moments: seq<Moment>, n: nat, cursor: string)

  function Arrived(session: Session): seq<Moment>
    requires session.n <= |session.moments|
  {
    session.moments[..session.n]
  }

  /** The session answers a request that carried `cursor`, and leaves a cursor it can justify. */
  ghost predicate Answers(log: seq<Entry>, cursor: string, k: nat, session: Session) {
    && k < |log| && log[k].id == cursor
    && Replays(log, k, session.moments)
    && session.n <= |session.moments|
    && (session.cursor == cursor || exists i :: 0 <= i < session.n && session.moments[i].id == session.cursor)
  }

  ghost predicate Resumes(log: seq<Entry>, cursor: string, session: Session) {
    exists k: nat :: Answers(log, cursor, k, session)
  }

  ghost predicate IsRun(log: seq<Entry>, cursors: seq<string>, sessions: seq<Session>) {
    && |cursors| == |sessions| + 1
    && forall j :: 0 <= j < |sessions| ==> sessions[j].cursor == cursors[j + 1] && Resumes(log, cursors[j], sessions[j])
  }

  /** Some session before number `j` took an event carrying the entry. */
  ghost predicate Delivered(sessions: seq<Session>, j: nat, entry: Entry)
    requires j <= |sessions|
  {
    exists s, i :: 0 <= s < j && 0 <= i < sessions[s].n <= |sessions[s].moments|
      && IsChange(sessions[s].moments[i]) && Carries(sessions[s].moments[i].event.value, entry)
  }

  lemma {:induction false} ReplayPrefix(log: seq<Entry>, k: nat, moments: seq<Moment>, n: nat)
    requires Replays(log, k, moments) && n <= |moments|
    ensures Replays(log, k, moments[..n])
    decreases n
  {
    if n > 0 {
      assert moments[..n][0] == moments[0] && moments[..n][1..] == moments[1..][..n - 1];
      ReplayPrefix(log, if IsChange(moments[0]) then k + 1 else k, moments[1..], n - 1);
    }
  }

  /** Ids in force never run ahead of the changes sent. */
  lemma {:induction false} ReplayId(log: seq<Entry>, k: nat, moments: seq<Moment>, i: nat) returns (p: nat)
    requires Replays(log, k, moments) && i < |moments|
    ensures k <= p <= k + Changes(moments) && p < |log| && moments[i].id == log[p].id
    decreases i
  {
    var next := if IsChange(moments[0]) then k + 1 else k;
    if i == 0 {
      p := next;
    } else {
      p := ReplayId(log, next, moments[1..], i - 1);
    }
  }

  /** The changes of a replay are consecutive entries: one for each, in order. */
  lemma {:induction false} ReplayDelivers(log: seq<Entry>, k: nat, moments: seq<Moment>, p: nat) returns (i: nat)
    requires Replays(log, k, moments) && k < p <= k + Changes(moments)
    ensures k + Changes(moments) < |log|
    ensures i < |moments| && IsChange(moments[i]) && Carries(moments[i].event.value, log[p])
    decreases |moments|
  {
    ReplayReach(log, k, moments);
    if IsChange(moments[0]) && p == k + 1 {
      i := 0;
    } else {
      var rest := ReplayDelivers(log, if IsChange(moments[0]) then k + 1 else k, moments[1..], p);
      i := rest + 1;
    }
  }

  lemma {:induction false} ReplayReach(log: seq<Entry>, k: nat, moments: seq<Moment>)
    requires Replays(log, k, moments)
    ensures k + Changes(moments) < |log|
    decreases |moments|
  {
    if moments != [] { ReplayReach(log, if IsChange(moments[0]) then k + 1 else k, moments[1..]); }
  }

  /** A change that arrived is an entry past the one resumed from. */
  lemma {:induction false} ReplayOnly(log: seq<Entry>, k: nat, moments: seq<Moment>, i: nat) returns (p: nat)
    requires Replays(log, k, moments) && i < |moments| && IsChange(moments[i])
    ensures k < p <= k + Changes(moments) && p < |log| && Carries(moments[i].event.value, log[p])
    decreases i
  {
    var next := if IsChange(moments[0]) then k + 1 else k;
    if i == 0 {
      p := next;
    } else {
      p := ReplayOnly(log, next, moments[1..], i - 1);
    }
  }

  lemma StillDelivered(sessions: seq<Session>, j: nat, entry: Entry)
    requires j < |sessions| && Delivered(sessions, j, entry)
    ensures Delivered(sessions, j + 1, entry)
  {}

  /** A session delivers what its connection replays, up to where it was cut. */
  lemma NewlyDelivered(log: seq<Entry>, sessions: seq<Session>, j: nat, k: nat, p: nat)
    requires j < |sessions| && sessions[j].n <= |sessions[j].moments|
    requires Replays(log, k, Arrived(sessions[j])) && k < p <= k + Changes(Arrived(sessions[j])) && p < |log|
    ensures Delivered(sessions, j + 1, log[p])
  {
    var i := ReplayDelivers(log, k, Arrived(sessions[j]), p);
    assert Arrived(sessions[j])[i] == sessions[j].moments[i];
  }

  /** The entries after `start` up to `high` have all been delivered. */
  ghost predicate DeliveredUpTo(log: seq<Entry>, sessions: seq<Session>, j: nat, start: nat, high: nat)
    requires j <= |sessions| && high < |log|
  {
    forall p :: start < p <= high ==> Delivered(sessions, j, log[p])
  }

  /** No change was delivered but those entries. */
  ghost predicate DeliveredOnly(log: seq<Entry>, sessions: seq<Session>, j: nat, start: nat, high: nat)
    requires j <= |sessions| && high < |log|
  {
    forall s, i :: 0 <= s < j && 0 <= i < sessions[s].n <= |sessions[s].moments| && IsChange(sessions[s].moments[i]) ==>
      exists p :: start < p <= high && Carries(sessions[s].moments[i].event.value, log[p])
  }

  lemma SessionDelivers(log: seq<Entry>, sessions: seq<Session>, j: nat, start: nat, k: nat, high: nat, more: nat)
    requires j < |sessions| && sessions[j].n <= |sessions[j].moments|
    requires start <= k <= high < |log| && Replays(log, k, Arrived(sessions[j]))
    requires DeliveredUpTo(log, sessions, j, start, high)
    requires more == Max(high, k + Changes(Arrived(sessions[j]))) < |log|
    ensures DeliveredUpTo(log, sessions, j + 1, start, more)
  {
    forall p | start < p <= more ensures Delivered(sessions, j + 1, log[p]) {
      if p <= high {
        StillDelivered(sessions, j, log[p]);
      } else {
        NewlyDelivered(log, sessions, j, k, p);
      }
    }
  }

  lemma SessionDeliversOnly(log: seq<Entry>, sessions: seq<Session>, j: nat, start: nat, k: nat, high: nat, more: nat)
    requires j < |sessions| && sessions[j].n <= |sessions[j].moments|
    requires start <= k <= high < |log| && Replays(log, k, Arrived(sessions[j]))
    requires DeliveredOnly(log, sessions, j, start, high)
    requires more == Max(high, k + Changes(Arrived(sessions[j]))) < |log|
    ensures DeliveredOnly(log, sessions, j + 1, start, more)
  {
    forall s, i | 0 <= s < j + 1 && 0 <= i < sessions[s].n <= |sessions[s].moments| && IsChange(sessions[s].moments[i])
      ensures exists p :: start < p <= more && Carries(sessions[s].moments[i].event.value, log[p])
    {
      if s == j {
        assert Arrived(sessions[j])[i] == sessions[j].moments[i];
        var p := ReplayOnly(log, k, Arrived(sessions[j]), i);
      } else {
        var p :| start < p <= high && Carries(sessions[s].moments[i].event.value, log[p]);
      }
    }
  }

  /** The cursor a session leaves is the id of an entry it did not pass. */
  lemma CursorAfter(log: seq<Entry>, cursor: string, k: nat, session: Session) returns (c: nat)
    requires Answers(log, cursor, k, session)
    ensures k <= c <= k + Changes(Arrived(session)) && c < |log| && log[c].id == session.cursor
  {
    ReplayPrefix(log, k, session.moments, session.n);
    if session.cursor == cursor {
      c := k;
    } else {
      var i :| 0 <= i < session.n && session.moments[i].id == session.cursor;
      assert Arrived(session)[i] == session.moments[i];
      c := ReplayId(log, k, Arrived(session), i);
    }
  }

  /** A connection resumes at the one entry whose id is the cursor. */
  lemma RunStep(log: seq<Entry>, cursors: seq<string>, sessions: seq<Session>, j: nat, k: nat)
    requires DistinctEntries(log) && IsRun(log, cursors, sessions) && j < |sessions|
    requires k < |log| && log[k].id == cursors[j]
    ensures Answers(log, cursors[j], k, sessions[j]) && sessions[j].cursor == cursors[j + 1]
  {
    var i: nat :| Answers(log, cursors[j], i, sessions[j]);
    assert i == k;
  }

  lemma SessionStep(
    log: seq<Entry>, cursor: string, sessions: seq<Session>, j: nat, start: nat, k: nat, high0: nat)
    returns (c: nat, high: nat)
    requires j < |sessions| && Answers(log, cursor, k, sessions[j]) && start <= k <= high0 < |log|
    requires DeliveredUpTo(log, sessions, j, start, high0) && DeliveredOnly(log, sessions, j, start, high0)
    ensures start <= c <= high < |log| && sessions[j].cursor == log[c].id
    ensures DeliveredUpTo(log, sessions, j + 1, start, high) && DeliveredOnly(log, sessions, j + 1, start, high)
  {
    var session := sessions[j];
    ReplayPrefix(log, k, session.moments, session.n);
    ReplayReach(log, k, Arrived(session));
    high := Max(high0, k + Changes(Arrived(session)));
    SessionDelivers(log, sessions, j, start, k, high0, high);
    SessionDeliversOnly(log, sessions, j, start, k, high0, high);
    c := CursorAfter(log, cursor, k, session);
  }

  /**
   * Over any sequence of drops and reconnects, once the cursor is the id of entry `start`:
   * before every connection the cursor is the id of some entry `c`; the entries taken so far
   * are, without a gap, those after `start` up to some `high`; and `c` is not past `high`.
   */
  lemma {:induction false} NothingIsSkipped(
    log: seq<Entry>, cursors: seq<string>, sessions: seq<Session>, start: nat, j: nat)
    returns (c: nat, high: nat)
    requires DistinctEntries(log) && IsRun(log, cursors, sessions)
    requires start < |log| && cursors[0] == log[start].id && j <= |sessions|
    ensures start <= c <= high < |log| && cursors[j] == log[c].id
    ensures DeliveredUpTo(log, sessions, j, start, high)
    ensures DeliveredOnly(log, sessions, j, start, high)
  {
    if j == 0 {
      c, high := start, start;
    } else {
      var k, high0 := NothingIsSkipped(log, cursors, sessions, start, j - 1);
      RunStep(log, cursors, sessions, j - 1, k);
      c, high := SessionStep(log, cursors[j - 1], sessions, j - 1, start, k, high0);
    }
  }

  /** Once one connection has brought everything, everything after `start` has been delivered. */
  lemma CaughtUp(log: seq<Entry>, cursors: seq<string>, sessions: seq<Session>, start: nat, j: nat)
    requires DistinctEntries(log) && IsRun(log, cursors, sessions)
    requires start < |log| && cursors[0] == log[start].id && j < |sessions|
    requires exists k: nat :: Answers(log, cursors[j], k, sessions[j]) && k + Changes(Arrived(sessions[j])) == |log| - 1
    ensures forall p :: start < p < |log| ==> Delivered(sessions, j + 1, log[p])
  {
    var c, high := NothingIsSkipped(log, cursors, sessions, start, j);
    var k: nat :| Answers(log, cursors[j], k, sessions[j]) && k + Changes(Arrived(sessions[j])) == |log| - 1;
    assert k == c;
    ReplayPrefix(log, k, sessions[j].moments, sessions[j].n);
    forall p | start < p < |log| ensures Delivered(sessions, j + 1, log[p]) {
      if p <= high {
        StillDelivered(sessions, j, log[p]);
      } else {
        NewlyDelivered(log, sessions, j, k, p);
      }
    }
  }

  /** A connection of the listener, cut anywhere, is a session: what it took is a prefix of what was meant. */
  lemma ConnectionIsSession(
    log: seq<Entry>, cursor: string, k: nat, meant: string, text: string, n: nat, taken: seq<Event>, carried: string)
    requires k < |log| && log[k].id == cursor && Replays(log, k, Moments(cursor, meant))
    requires text <= meant && Reached(cursor, text, n, taken, carried)
    ensures Answers(log, cursor, k, Session(Moments(cursor, meant), n, carried))
    ensures EventsIn(Moments(cursor, meant)[..n]) == taken
  {
    MomentsPrefix(cursor, text, meant);
    PrefixIsSession(log, cursor, k, Moments(cursor, text), Moments(cursor, meant), n, taken, carried);
  }

  lemma PrefixIsSession(
    log: seq<Entry>, cursor: string, k: nat, short: seq<Moment>, long: seq<Moment>, n: nat, taken: seq<Event>,
    carried: string)
    requires k < |log| && log[k].id == cursor && Replays(log, k, long) && short <= long
    requires n <= |short| && EventsIn(short[..n]) == taken
    requires carried == cursor || exists i :: 0 <= i < n && short[i].id == carried
    ensures Answers(log, cursor, k, Session(long, n, carried)) && EventsIn(long[..n]) == taken
  {
    PrefixAgrees(short, long, n);
  }

  lemma PrefixAgrees(short: seq<Moment>, long: seq<Moment>, n: nat)
    requires short <= long && n <= |short|
    ensures long[..n] == short[..n]
    ensures forall i :: 0 <= i < n ==> long[i] == short[i]
  {}
}
