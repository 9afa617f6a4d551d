/**
 * What a consumer of push events is handed over a run of connections
 * (src/jmap/push/listener.py, src/jmap/push/eventsource.py).
 */
module Handovers {
  import opened Wrappers
  import opened Sse
  import opened Resume
  import opened EventTexts
  import Sequences

  // One connection of the listener: what the server meant to send, the text that got through,
  // how far that was read, the events taken and the payloads handed to the consumer.
  datatype Connection = Connection(meant: string, text: string, n: nat, taken: seq<Event>, handed: seq<Payload>)

  /** What the server means to send resumes after the entry whose id is the cursor it was asked with. */
  ghost predicate Serves(log: seq<Entry>, cursor: string, meant: string) {
    exists k: nat :: k < |log| && log[k].id == cursor && Replays(log, k, Moments(cursor, meant))
  }

  /** A connection dialled with `cursor`, as the listener's `Connect` leaves it, to a server that replays. */
  ghost predicate Connects(log: seq<Entry>, interpret: Interpreter, cursor: string, conn: Connection, next: string) {
    && Serves(log, cursor, conn.meant)
    && conn.text <= conn.meant
    && Reached(cursor, conn.text, conn.n, conn.taken, next)
    && conn.handed == Readings(conn.taken, interpret)
  }

  /** Connections one after the other, each dialled with the cursor the one before left. */
  ghost predicate IsListening(log: seq<Entry>, interpret: Interpreter, cursors: seq<string>, conns: seq<Connection>) {
    && |cursors| == |conns| + 1
    && forall j :: 0 <= j < |conns| ==> Connects(log, interpret, cursors[j], conns[j], cursors[j + 1])
  }

  // ---------------------------------------------------------------------------
  // From payloads to events and back
  // ---------------------------------------------------------------------------

  lemma {:induction false} ReadingsPrefix(events: seq<Event>, m: nat, interpret: Interpreter)
    requires m <= |events|
    ensures Readings(events[..m], interpret) <= Readings(events, interpret)
    decreases |events|
  {
    if m == |events| {
      assert events[..m] == events;
    } else {
      ReadingsPrefix(events[..|events| - 1], m, interpret);
      assert events[..|events| - 1][..m] == events[..m];
    }
  }

  /** Payload `at` is what event `m` reads as. */
  ghost predicate ReadAt(conn: Connection, m: nat, at: nat, interpret: Interpreter) {
    && m < |conn.taken| && at < |conn.handed|
    && at == |Readings(conn.taken[..m], interpret)|
    && Reading(conn.taken[m], interpret) == [conn.handed[at]]
  }

  lemma ReadingStep(events: seq<Event>, m: nat, interpret: Interpreter)
    requires m < |events|
    ensures Readings(events[..m + 1], interpret) == Readings(events[..m], interpret) + Reading(events[m], interpret)
  {
    assert events[..m + 1][..m] == events[..m];
  }

  /** An event with something to read is handed over, at a place of its own. */
  lemma EventIsRead(conn: Connection, m: nat, interpret: Interpreter) returns (at: nat)
    requires conn.handed == Readings(conn.taken, interpret)
    requires m < |conn.taken| && Reading(conn.taken[m], interpret) != []
    ensures ReadAt(conn, m, at, interpret)
  {
    at := |Readings(conn.taken[..m], interpret)|;
    ReadingStep(conn.taken, m, interpret);
    ReadingsPrefix(conn.taken, m + 1, interpret);
    assert Readings(conn.taken[..m + 1], interpret)[at] == Reading(conn.taken[m], interpret)[0];
  }

  /** Whatever is handed over was read from some event. */
  lemma {:induction false} ReadFromEvent(events: seq<Event>, at: nat, interpret: Interpreter) returns (m: nat)
    requires at < |Readings(events, interpret)|
    ensures m < |events| && at == |Readings(events[..m], interpret)|
    ensures Reading(events[m], interpret) == [Readings(events, interpret)[at]]
    decreases |events|
  {
    var init := events[..|events| - 1];
    if at < |Readings(init, interpret)| {
      m := ReadFromEvent(init, at, interpret);
      assert init[..m] == events[..m];
    } else {
      m := |events| - 1;
    }
  }

  lemma ReadingsAdvance(events: seq<Event>, m: nat, l: nat, interpret: Interpreter)
    requires m < l <= |events|
    ensures |Readings(events[..m], interpret)| + |Reading(events[m], interpret)| <= |Readings(events[..l], interpret)|
  {
    ReadingStep(events, m, interpret);
    ReadingsPrefix(events[..l], m + 1, interpret);
    assert events[..l][..m + 1] == events[..m + 1];
  }

  /** No payload is read from two events. */
  lemma ReadOnce(conn: Connection, m: nat, l: nat, at: nat, interpret: Interpreter)
    requires ReadAt(conn, m, at, interpret) && ReadAt(conn, l, at, interpret) && m <= l
    ensures m == l
  {
    if m < l { ReadingsAdvance(conn.taken, m, l, interpret); }
  }

  // ---------------------------------------------------------------------------
  // From events to moments and back
  // ---------------------------------------------------------------------------

  lemma {:induction false} EventsPrefix(moments: seq<Moment>, i: nat)
    requires i <= |moments|
    ensures EventsIn(moments[..i]) <= EventsIn(moments)
    decreases |moments|
  {
    if i == |moments| {
      assert moments[..i] == moments;
    } else {
      EventsPrefix(moments[..|moments| - 1], i);
      assert moments[..|moments| - 1][..i] == moments[..i];
    }
  }

  lemma EventOfMoment(moments: seq<Moment>, i: nat) returns (m: nat)
    requires i < |moments| && moments[i].event.Some?
    ensures m < |EventsIn(moments)| && EventsIn(moments)[m] == moments[i].event.value
  {
    m := |EventsIn(moments[..i])|;
    assert moments[..i + 1][..i] == moments[..i];
    EventsPrefix(moments, i + 1);
    assert EventsIn(moments[..i + 1])[m] == moments[i].event.value;
  }

  lemma {:induction false} MomentOf(moments: seq<Moment>, m: nat) returns (i: nat)
    requires m < |EventsIn(moments)|
    ensures i < |moments| && moments[i].event == Some(EventsIn(moments)[m])
    decreases |moments|
  {
    var init := moments[..|moments| - 1];
    if m < |EventsIn(init)| {
      i := MomentOf(init, m);
    } else {
      i := |moments| - 1;
    }
  }

  // ---------------------------------------------------------------------------
  // Connections are sessions
  // ---------------------------------------------------------------------------

  function SessionOf(cursor: string, conn: Connection, next: string): Session {
    Session(Moments(cursor, conn.meant), conn.n, next)
  }

  /** What a session took is what its connection took. */
  ghost predicate Took(session: Session, conn: Connection) {
    session.n <= |session.moments| && EventsIn(session.moments[..session.n]) == conn.taken
  }

  /** The session resumes at `cursor`, takes what the connection took and leaves the same cursor. */
  ghost predicate Fits(
    log: seq<Entry>, interpret: Interpreter, cursor: string, conn: Connection, next: string, session: Session)
  {
    && session.cursor == next && Resumes(log, cursor, session)
    && Took(session, conn) && conn.handed == Readings(conn.taken, interpret)
  }

  lemma ConnectionFits(log: seq<Entry>, interpret: Interpreter, cursor: string, conn: Connection, next: string)
    requires Connects(log, interpret, cursor, conn, next)
    ensures Fits(log, interpret, cursor, conn, next, SessionOf(cursor, conn, next))
  {
    var k: nat :| k < |log| && log[k].id == cursor && Replays(log, k, Moments(cursor, conn.meant));
    ConnectionIsSession(log, cursor, k, conn.meant, conn.text, conn.n, conn.taken, next);
    assert Answers(log, cursor, k, SessionOf(cursor, conn, next));
  }

  ghost predicate AllFit(
    log: seq<Entry>, interpret: Interpreter, cursors: seq<string>, conns: seq<Connection>, sessions: seq<Session>)
  {
    && |cursors| == |conns| + 1 && |sessions| == |conns|
    && forall j :: 0 <= j < |conns| ==> Fits(log, interpret, cursors[j], conns[j], cursors[j + 1], sessions[j])
  }

  lemma {:induction false} ListeningFits(
    log: seq<Entry>, interpret: Interpreter, cursors: seq<string>, conns: seq<Connection>)
    returns (sessions: seq<Session>)
    requires IsListening(log, interpret, cursors, conns)
    ensures AllFit(log, interpret, cursors, conns, sessions)
    decreases |conns|
  {
    sessions := [];
    if conns != [] {
      var n := |conns| - 1;
      ListeningPrefix(log, interpret, cursors, conns);
      sessions := ListeningFits(log, interpret, cursors[..n + 1], conns[..n]);
      ConnectionFits(log, interpret, cursors[n], conns[n], cursors[n + 1]);
      OneMoreFits(log, interpret, cursors, conns, sessions, SessionOf(cursors[n], conns[n], cursors[n + 1]));
      sessions := sessions + [SessionOf(cursors[n], conns[n], cursors[n + 1])];
    }
  }

  lemma ListeningPrefix(log: seq<Entry>, interpret: Interpreter, cursors: seq<string>, conns: seq<Connection>)
    requires IsListening(log, interpret, cursors, conns) && conns != []
    ensures IsListening(log, interpret, cursors[..|conns|], conns[..|conns| - 1])
  {}

  lemma OneMoreFits(
    log: seq<Entry>, interpret: Interpreter, cursors: seq<string>, conns: seq<Connection>, sessions: seq<Session>,
    last: Session)
    requires conns != [] && |cursors| == |conns| + 1
    requires AllFit(log, interpret, cursors[..|conns|], conns[..|conns| - 1], sessions)
    requires Fits(log, interpret, cursors[|conns| - 1], conns[|conns| - 1], cursors[|conns|], last)
    ensures AllFit(log, interpret, cursors, conns, sessions + [last])
  {
    var n := |conns| - 1;
    forall j | 0 <= j < n
      ensures Fits(log, interpret, cursors[j], conns[j], cursors[j + 1], (sessions + [last])[j])
    {
      assert Fits(log, interpret, cursors[..n + 1][j], conns[..n][j], cursors[..n + 1][j + 1], sessions[j]);
    }
  }

  lemma FittingIsRun(
    log: seq<Entry>, interpret: Interpreter, cursors: seq<string>, conns: seq<Connection>, sessions: seq<Session>)
    requires AllFit(log, interpret, cursors, conns, sessions)
    ensures IsRun(log, cursors, sessions)
  {
    forall j | 0 <= j < |sessions|
      ensures sessions[j].cursor == cursors[j + 1] && Resumes(log, cursors[j], sessions[j])
    {
      assert Fits(log, interpret, cursors[j], conns[j], cursors[j + 1], sessions[j]);
    }
  }

  // ---------------------------------------------------------------------------
  // The listening loop
  // ---------------------------------------------------------------------------

  // What dialling comes to: a stream that closed after a while or was lost, "not now", or "no".
  datatype Dial =
    | Stream(chunks: seq<string>, lasted: Option<nat>)
    | NotNow(retryAfter: nat)
    | Refused

  // How listening stands after some connections.
  datatype ListenEnd = Listening | Stopped(end: FeedEnd) | TurnedAway

  function ChunksOf(dial: Dial): seq<string> {
    if dial.Stream? then dial.chunks else []
  }

  /** However often and with whatever entry's id it is asked, the server means to resume after that entry. */
  ghost predicate Replayer(log: seq<Entry>, serve: (nat, string) -> string) {
    forall round: nat, k: nat :: k < |log| ==> Serves(log, log[k].id, serve(round, log[k].id))
  }

  /** What gets through of a stream is how it begins. */
  ghost predicate Carrier(dial: (nat, string) -> Dial, serve: (nat, string) -> string) {
    forall round: nat, cursor: string ::
      Sequences.Concat(ChunksOf(dial(round, cursor))) <= serve(round, cursor)
  }

  /** The id of some entry, so that a server can resume from it. */
  ghost predicate Stands(log: seq<Entry>, cursor: string) {
    Resumable(cursor) && exists k: nat :: k < |log| && log[k].id == cursor
  }

  lemma NextStands(log: seq<Entry>, interpret: Interpreter, cursor: string, conn: Connection, next: string)
    requires Connects(log, interpret, cursor, conn, next)
    ensures Stands(log, next)
  {
    ConnectionFits(log, interpret, cursor, conn, next);
    var k: nat :| Answers(log, cursor, k, SessionOf(cursor, conn, next));
    var c := CursorAfter(log, cursor, k, SessionOf(cursor, conn, next));
    assert log[c].id == next;
  }

  lemma OneMoreListens(log: seq<Entry>, interpret: Interpreter, cursors: seq<string>, conns: seq<Connection>,
                       conn: Connection, next: string)
    requires IsListening(log, interpret, cursors, conns)
    requires Connects(log, interpret, cursors[|conns|], conn, next)
    ensures IsListening(log, interpret, cursors + [next], conns + [conn])
  {
    var longer, more := cursors + [next], conns + [conn];
    forall j | 0 <= j < |more| ensures Connects(log, interpret, longer[j], more[j], longer[j + 1]) {
      if j < |conns| { assert Connects(log, interpret, cursors[j], conns[j], cursors[j + 1]); }
    }
  }

  /** What listening since `origin` has come to: the connections made, what was handed over, and the cursor now. */
  ghost predicate Heard(log: seq<Entry>, interpret: Interpreter, origin: string, cursor: string,
                        cursors: seq<string>, conns: seq<Connection>, handed: seq<seq<Payload>>)
  {
    && IsListening(log, interpret, cursors, conns)
    && cursors[0] == origin && cursors[|conns|] == cursor && Stands(log, cursor)
    && |handed| == |conns| && forall j :: 0 <= j < |conns| ==> handed[j] == conns[j].handed
  }

  predicate LastIsMalformed(conns: seq<Connection>, interpret: Interpreter, cursor: string) {
    conns != [] && EndsMalformed(conns[|conns| - 1].taken, interpret, cursor)
  }

  /** No two dials closer than the floor, nor further apart than the ceiling. */
  predicate Paced(waits: seq<int>) {
    forall j :: 0 <= j < |waits| ==> MIN_RECONNECT_MILLIS <= waits[j] <= MAX_RECONNECT_MILLIS
  }

  lemma HeardNothing(log: seq<Entry>, interpret: Interpreter, origin: string)
    requires Stands(log, origin)
    ensures Heard(log, interpret, origin, origin, [origin], [], [])
  {}

  lemma HeardMore(log: seq<Entry>, interpret: Interpreter, origin: string, cursor: string, cursors: seq<string>,
                  conns: seq<Connection>, handed: seq<seq<Payload>>, conn: Connection, next: string)
    requires Heard(log, interpret, origin, cursor, cursors, conns, handed)
    requires Connects(log, interpret, cursor, conn, next)
    ensures Heard(log, interpret, origin, next, cursors + [next], conns + [conn], handed + [conn.handed])
  {
    OneMoreListens(log, interpret, cursors, conns, conn, next);
    NextStands(log, interpret, cursor, conn, next);
    var more, told := conns + [conn], handed + [conn.handed];
    forall j | 0 <= j < |more| ensures told[j] == more[j].handed {
      if j < |conns| { assert handed[j] == conns[j].handed; }
    }
  }

  lemma PacedMore(waits: seq<int>, wait: int)
    requires Paced(waits) && MIN_RECONNECT_MILLIS <= wait <= MAX_RECONNECT_MILLIS
    ensures Paced(waits + [wait])
  {}

  lemma Served(log: seq<Entry>, dial: (nat, string) -> Dial, serve: (nat, string) -> string, round: nat,
               cursor: string)
    requires Stands(log, cursor) && Replayer(log, serve) && Carrier(dial, serve)
    ensures Resumable(cursor) && Serves(log, cursor, serve(round, cursor))
    ensures Sequences.Concat(ChunksOf(dial(round, cursor))) <= serve(round, cursor)
  {
    var k: nat :| k < |log| && log[k].id == cursor;
    assert Serves(log, log[k].id, serve(round, log[k].id));
  }

  lemma NothingRead(cursor: string, n: nat, taken: seq<Event>, next: string)
    requires Reached(cursor, "", n, taken, next)
    ensures taken == [] && next == cursor
  {
    assert Moments(cursor, "") == [];
  }

  /** One connection to a server that resumes, however it ends. */
  method ListenOnce(listener: PushListener, chunks: seq<string>, interpret: Interpreter, patience: nat,
                    ghost log: seq<Entry>, ghost meant: string)
    returns (handed: seq<Payload>, end: FeedEnd, ghost conn: Connection)
    requires Resumable(listener.lastEventId) && Serves(log, listener.lastEventId, meant)
    requires Sequences.Concat(chunks) <= meant
    modifies listener`lastEventId, listener`retry
    ensures Connects(log, interpret, old(listener.lastEventId), conn, listener.lastEventId)
    ensures conn.meant == meant && handed == conn.handed
    ensures end.Complete? ==> conn.text == Sequences.Concat(chunks)
    ensures chunks == [] ==> handed == [] && listener.lastEventId == old(listener.lastEventId)
    ensures end.Raised? ==> EndsMalformed(conn.taken, interpret, listener.lastEventId)
  {
    ghost var cursor := listener.lastEventId;
    ghost var text, n, taken;
    handed, end, text, n, taken := listener.Connect(chunks, interpret, patience);
    conn := Connection(meant, text, n, taken, handed);
    if chunks == [] { NothingRead(cursor, n, taken, listener.lastEventId); }
  }

  /** Notes how a connection ended, and says how long to wait before the next. */
  method Settle(listener: PushListener, dial: Dial, delivered: bool) returns (wait: int)
    requires !dial.Refused?
    modifies listener`failures
    ensures listener.failures ==
      if dial.Stream? && dial.lasted.Some? && (delivered || dial.lasted.value >= HEALTHY_CONNECTION_MILLIS) then 0
      else (if delivered then 0 else old(listener.failures)) + 1
    ensures wait == Delay(listener.retry, listener.failures, if dial.NotNow? then dial.retryAfter else 0)
    ensures MIN_RECONNECT_MILLIS <= wait <= MAX_RECONNECT_MILLIS
    ensures dial.NotNow? ==> Min(dial.retryAfter, MAX_RECONNECT_MILLIS) <= wait
  {
    if delivered { listener.NoteDelivery(); }
    if dial.Stream? && dial.lasted.Some? {
      listener.NoteEnd(delivered, dial.lasted.value);
    } else {
      listener.NoteFailure();
    }
    var atLeast := if dial.NotNow? then dial.retryAfter else 0;
    wait := Delay(listener.retry, listener.failures, atLeast);
    DelayBounds(listener.retry, listener.failures, atLeast);
  }

  /** Dials once, with the cursor the connections before have left, and waits if that is not the end. */
  method DialOnce(listener: PushListener, answer: Dial, interpret: Interpreter, patience: nat,
                  ghost log: seq<Entry>, ghost meant: string, ghost origin: string,
                  ghost cursors: seq<string>, ghost conns: seq<Connection>, handed: seq<seq<Payload>>)
    returns (told: seq<seq<Payload>>, wait: int, end: ListenEnd, ghost conn: Connection)
    requires Heard(log, interpret, origin, listener.lastEventId, cursors, conns, handed)
    requires Serves(log, listener.lastEventId, meant) && Sequences.Concat(ChunksOf(answer)) <= meant
    modifies listener
    ensures Heard(log, interpret, origin, listener.lastEventId, cursors + [listener.lastEventId], conns + [conn], told)
    ensures end.TurnedAway? <==> answer.Refused?
    ensures end.TurnedAway? ==> told[|told| - 1] == []
    ensures end.Listening? ==> MIN_RECONNECT_MILLIS <= wait <= MAX_RECONNECT_MILLIS
    ensures end == Stopped(Raised) ==> LastIsMalformed(conns + [conn], interpret, listener.lastEventId)
  {
    ghost var cursor := listener.lastEventId;
    var payloads, fed;
    payloads, fed, conn := ListenOnce(listener, ChunksOf(answer), interpret, patience, log, meant);
    HeardMore(log, interpret, origin, cursor, cursors, conns, handed, conn, listener.lastEventId);
    told, wait := handed + [payloads], 0;
    if answer.Refused? {
      end := TurnedAway;
    } else if !fed.Complete? {
      end := Stopped(fed);
    } else {
      end := Listening;
      wait := Settle(listener, answer, payloads != []);
    }
  }

  /**
   * Dials up to `rounds` times, each time with the cursor the connection before left, until
   * the consumer stops, a payload or a line cannot be taken, or the server says no.
   */
  method Listen(listener: PushListener, dial: (nat, string) -> Dial, interpret: Interpreter, patience: nat -> nat,
                rounds: nat, ghost log: seq<Entry>, ghost serve: (nat, string) -> string)
    returns (handed: seq<seq<Payload>>, waits: seq<int>, end: ListenEnd,
             ghost cursors: seq<string>, ghost conns: seq<Connection>)
    requires Stands(log, listener.lastEventId) && Replayer(log, serve) && Carrier(dial, serve)
    modifies listener
    ensures Heard(log, interpret, old(listener.lastEventId), listener.lastEventId, cursors, conns, handed)
    ensures |conns| <= rounds && Paced(waits) && |waits| == if end.Listening? then rounds else |conns| - 1
    ensures end.Listening? ==> |conns| == rounds
    ensures end == Stopped(Raised) ==> LastIsMalformed(conns, interpret, listener.lastEventId)
    ensures end.TurnedAway? ==> handed[|handed| - 1] == []
  {
    ghost var origin := listener.lastEventId;
    handed, waits, end, cursors, conns := [], [], Listening, [origin], [];
    HeardNothing(log, interpret, origin);
    for round := 0 to rounds
      invariant |conns| == |waits| == round && end.Listening? && Paced(waits)
      invariant Heard(log, interpret, origin, listener.lastEventId, cursors, conns, handed)
    {
      var cursor := listener.lastEventId;
      Served(log, dial, serve, round, cursor);
      var wait;
      ghost var conn;
      handed, wait, end, conn := DialOnce(listener, dial(round, cursor), interpret, patience(round), log,
                                          serve(round, cursor), origin, cursors, conns, handed);
      cursors, conns := cursors + [listener.lastEventId], conns + [conn];
      if !end.Listening? { return; }
      PacedMore(waits, wait);
      waits := waits + [wait];
    }
  }

  // ---------------------------------------------------------------------------
  // What is handed over
  // ---------------------------------------------------------------------------

  /** The consumer can be handed something for the entry. */
  predicate Readable(entry: Entry, interpret: Interpreter) {
    interpret(entry.kind, entry.data) != Unrecognised && interpret(entry.kind, entry.data) != Malformed
  }

  /** Payload `at` of the connection was read from an event that carries the entry. */
  ghost predicate HandedAt(conn: Connection, at: nat, entry: Entry, interpret: Interpreter) {
    exists m: nat :: ReadAt(conn, m, at, interpret) && Carries(conn.taken[m], entry)
  }

  /** Some connection before number `j` handed the entry over. */
  ghost predicate HandedOver(conns: seq<Connection>, j: nat, entry: Entry, interpret: Interpreter)
    requires j <= |conns|
  {
    exists s: nat, at: nat :: s < j && HandedAt(conns[s], at, entry, interpret)
  }

  /** Payload `at` of the connection is a ping, or stands for one of the entries after `start` up to `high`. */
  ghost predicate Accounted(
    log: seq<Entry>, conn: Connection, at: nat, start: nat, high: nat, interpret: Interpreter)
    requires high < |log|
  {
    || (exists m: nat :: ReadAt(conn, m, at, interpret) && conn.taken[m].kind == PING)
    || (exists p: nat :: start < p <= high && HandedAt(conn, at, log[p], interpret))
  }

  lemma DeliveredIsHandedOver(
    log: seq<Entry>, cursors: seq<string>, sessions: seq<Session>, conns: seq<Connection>, j: nat, entry: Entry,
    interpret: Interpreter)
    requires AllFit(log, interpret, cursors, conns, sessions) && j <= |conns|
    requires Delivered(sessions, j, entry) && Readable(entry, interpret)
    ensures HandedOver(conns, j, entry, interpret)
  {
    var s: nat, i: nat :| s < j && i < sessions[s].n <= |sessions[s].moments|
      && IsChange(sessions[s].moments[i]) && Carries(sessions[s].moments[i].event.value, entry);
    assert Fits(log, interpret, cursors[s], conns[s], cursors[s + 1], sessions[s]);
    var m := EventOfMoment(sessions[s].moments[..sessions[s].n], i);
    var at := EventIsRead(conns[s], m, interpret);
    assert HandedAt(conns[s], at, entry, interpret);
  }

  lemma HandedIsReadable(conns: seq<Connection>, j: nat, entry: Entry, interpret: Interpreter)
    requires j <= |conns| && HandedOver(conns, j, entry, interpret)
    ensures Readable(entry, interpret)
  {
    var s: nat, at: nat :| s < j && HandedAt(conns[s], at, entry, interpret);
    var m: nat :| ReadAt(conns[s], m, at, interpret) && Carries(conns[s].taken[m], entry);
    assert Reading(conns[s].taken[m], interpret) != [];
  }

  lemma HandedIsAccounted(
    log: seq<Entry>, cursors: seq<string>, sessions: seq<Session>, conns: seq<Connection>, j: nat, s: nat, at: nat,
    start: nat, high: nat, interpret: Interpreter)
    requires AllFit(log, interpret, cursors, conns, sessions) && s < j <= |conns| && high < |log|
    requires DeliveredOnly(log, sessions, j, start, high) && at < |conns[s].handed|
    ensures Accounted(log, conns[s], at, start, high, interpret)
  {
    var conn, session := conns[s], sessions[s];
    assert Fits(log, interpret, cursors[s], conn, cursors[s + 1], session);
    var m := ReadFromEvent(conn.taken, at, interpret);
    assert ReadAt(conn, m, at, interpret);
    if conn.taken[m].kind != PING {
      var i := MomentOf(session.moments[..session.n], m);
      assert session.moments[..session.n][i] == session.moments[i] && IsChange(session.moments[i]);
      var p: nat :| start < p <= high && Carries(session.moments[i].event.value, log[p]);
      assert HandedAt(conn, at, log[p], interpret);
    }
  }

  /**
   * Over any run of connections, each cut, abandoned or failed anywhere, once the cursor is
   * the id of entry `start`: of the entries after it, up to a point the cursor never passes,
   * exactly those that can be read are handed to the consumer, and nothing else is but pings.
   */
  lemma ReadableIsHandedOver(
    log: seq<Entry>, interpret: Interpreter, cursors: seq<string>, conns: seq<Connection>, start: nat, j: nat)
    returns (c: nat, high: nat)
    requires DistinctEntries(log) && IsListening(log, interpret, cursors, conns)
    requires start < |log| && cursors[0] == log[start].id && j <= |conns|
    ensures start <= c <= high < |log| && cursors[j] == log[c].id
    ensures forall p :: start < p <= high ==> (HandedOver(conns, j, log[p], interpret) <==> Readable(log[p], interpret))
    ensures forall s, at :: 0 <= s < j && 0 <= at < |conns[s].handed| ==>
              Accounted(log, conns[s], at, start, high, interpret)
  {
    var sessions := ListeningFits(log, interpret, cursors, conns);
    c, high := FittingHandsOver(log, interpret, cursors, conns, sessions, start, j);
  }

  lemma FittingHandsOver(
    log: seq<Entry>, interpret: Interpreter, cursors: seq<string>, conns: seq<Connection>, sessions: seq<Session>,
    start: nat, j: nat)
    returns (c: nat, high: nat)
    requires DistinctEntries(log) && AllFit(log, interpret, cursors, conns, sessions)
    requires start < |log| && cursors[0] == log[start].id && j <= |conns|
    ensures start <= c <= high < |log| && cursors[j] == log[c].id
    ensures forall p :: start < p <= high ==> (HandedOver(conns, j, log[p], interpret) <==> Readable(log[p], interpret))
    ensures forall s, at :: 0 <= s < j && 0 <= at < |conns[s].handed| ==>
              Accounted(log, conns[s], at, start, high, interpret)
  {
    FittingIsRun(log, interpret, cursors, conns, sessions);
    c, high := NothingIsSkipped(log, cursors, sessions, start, j);
    forall p | start < p <= high ensures HandedOver(conns, j, log[p], interpret) <==> Readable(log[p], interpret) {
      if Readable(log[p], interpret) { DeliveredIsHandedOver(log, cursors, sessions, conns, j, log[p], interpret); }
      if HandedOver(conns, j, log[p], interpret) { HandedIsReadable(conns, j, log[p], interpret); }
    }
    forall s, at | 0 <= s < j && 0 <= at < |conns[s].handed|
      ensures Accounted(log, conns[s], at, start, high, interpret)
    {
      HandedIsAccounted(log, cursors, sessions, conns, j, s, at, start, high, interpret);
    }
  }

  /** Entries that read alike are still handed over apart: no payload stands for two of them. */
  lemma HandedApart(log: seq<Entry>, conn: Connection, at: nat, p: nat, q: nat, interpret: Interpreter)
    requires DistinctEntries(log) && p < |log| && q < |log|
    requires HandedAt(conn, at, log[p], interpret) && HandedAt(conn, at, log[q], interpret)
    ensures p == q
  {
    var m: nat :| ReadAt(conn, m, at, interpret) && Carries(conn.taken[m], log[p]);
    var l: nat :| ReadAt(conn, l, at, interpret) && Carries(conn.taken[l], log[q]);
    if m <= l { ReadOnce(conn, m, l, at, interpret); } else { ReadOnce(conn, l, m, at, interpret); }
  }

  // ---------------------------------------------------------------------------
  // What is not
  // ---------------------------------------------------------------------------

  /**
   * A connection that ends on a payload that does not parse, as `Connect` says it may, leaves
   * the cursor at that entry, and no later connection hands the entry over.
   */
  lemma MalformedIsPassed(
    log: seq<Entry>, interpret: Interpreter, cursors: seq<string>, conns: seq<Connection>, j: nat, p: nat)
    requires IsListening(log, interpret, cursors, conns) && j < |conns| && p < |log| && Resumable(log[p].id)
    requires EndsMalformed(conns[j].taken, interpret, cursors[j + 1])
    requires Carries(conns[j].taken[|conns[j].taken| - 1], log[p])
    ensures cursors[j + 1] == log[p].id
    ensures !HandedOver(conns, |conns|, log[p], interpret)
  {
    if HandedOver(conns, |conns|, log[p], interpret) { HandedIsReadable(conns, |conns|, log[p], interpret); }
  }

  /** An entry that can be written as an event: its values hold no line break and start with no blank. */
  predicate Writable(entry: Entry) {
    Plain(entry.id) && Plain(entry.kind) && Plain(entry.data) && '\0' !in entry.id && entry.kind != ""
  }

  /** The connection on which the server sends the text of one entry, all of it read. */
  function SentAlone(entry: Entry): Connection {
    var text := EventText(entry.id, entry.kind, entry.data);
    Connection(text, text, 1, [Event(entry.kind, entry.data, entry.id, None)], [])
  }

  lemma AloneIsReached(cursor: string, entry: Entry)
    requires Writable(entry) && Resumable(entry.id)
    ensures Moments(cursor, EventText(entry.id, entry.kind, entry.data))
         == [Moment(entry.id, Some(Event(entry.kind, entry.data, entry.id, None)))]
    ensures Reached(cursor, SentAlone(entry).text, 1, SentAlone(entry).taken, entry.id)
  {
    EventTextMoment(cursor, entry.id, entry.kind, entry.data);
    var event := Event(entry.kind, entry.data, entry.id, None);
    OneMoment(cursor, Moment(entry.id, Some(event)));
  }

  lemma OneMoment(cursor: string, moment: Moment)
    requires moment.event.Some? && Resumable(moment.id)
    ensures ReachedIn([moment], cursor, 1, [moment.event.value], moment.id)
  {
    assert [moment][..1] == [moment] && [moment][..0] == [];
    assert [moment][0].id == moment.id;
  }

  /**
   * And it does happen: wherever the next entry does not parse, the server may send just its
   * text, and the connection leaves the cursor there with nothing handed over.
   */
  lemma MalformedMovesTheCursor(log: seq<Entry>, k: nat, interpret: Interpreter) returns (conn: Connection)
    requires k + 1 < |log| && log[k + 1].kind != PING && Writable(log[k + 1]) && Resumable(log[k + 1].id)
    requires interpret(log[k + 1].kind, log[k + 1].data) == Malformed
    ensures conn == SentAlone(log[k + 1])
    ensures Connects(log, interpret, log[k].id, conn, log[k + 1].id)
    ensures EndsMalformed(conn.taken, interpret, log[k + 1].id) && conn.handed == []
  {
    var entry := log[k + 1];
    var event := Event(entry.kind, entry.data, entry.id, None);
    conn := SentAlone(entry);
    AloneIsReached(log[k].id, entry);
    OneReplay(log, k, [Moment(entry.id, Some(event))]);
    assert [event][..0] == [];
    assert Readings([event], interpret) == [];
  }

  lemma OneReplay(log: seq<Entry>, k: nat, moments: seq<Moment>)
    requires k + 1 < |log| && |moments| == 1 && IsChange(moments[0])
    requires moments[0].id == log[k + 1].id && Carries(moments[0].event.value, log[k + 1])
    ensures Replays(log, k, moments)
  {
    assert moments[1..] == [];
  }
}
