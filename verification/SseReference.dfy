/**
 * The event-stream format as the WHATWG HTML standard interprets it (section 9.2.6), line
 * by line over a whole text, and the incremental parser (src/jmap/push/sse.py) measured against it.
 */
module SseReference {
  import opened Wrappers
  import opened Sequences
  import opened Sse

  // The standard's buffers. `data` is one string, every value followed by a LF.
  datatype Stream = Stream(
    lastEventId: string,
    idBuffer: string,
    retry: Option<nat>,
    data: string,
    kind: string)

  datatype Reading = Reading(stream: Stream, events: seq<Event>)

  /** A blank line dispatches: the id is set, and without data nothing is delivered. */
  function DispatchEvent(stream: Stream): (Stream, Option<Event>) {
    var after := stream.(lastEventId := stream.idBuffer, data := "", kind := "");
    if stream.data == "" then (after, None)
    else
      var kind := if stream.kind != "" then stream.kind else DEFAULT_EVENT_TYPE;
      (after, Some(Event(kind, stream.data[..|stream.data| - 1], after.lastEventId, stream.retry)))
  }

  function ProcessField(stream: Stream, name: string, value: string): Stream {
    match name
    case "event" => stream.(kind := value)
    case "data" => stream.(data := stream.data + value + "\n")
    case "id" => if '\0' in value then stream else stream.(idBuffer := value)
    case "retry" => if RetryValue(value).Some? then stream.(retry := RetryValue(value)) else stream
    case _ => stream
  }

  function ProcessLine(stream: Stream, line: string): (Stream, Option<Event>) {
    if line == "" then DispatchEvent(stream)
    else if line[0] == ':' then (stream, None)
    else if ':' in line then (ProcessField(stream, FieldName(line), FieldValue(line)), None)
    else (ProcessField(stream, line, ""), None)
  }

  function ProcessAll(stream: Stream, lines: seq<string>): Reading {
    if lines == [] then Reading(stream, [])
    else
      var before := ProcessAll(stream, lines[..|lines| - 1]);
      var (after, event) := ProcessLine(before.stream, lines[|lines| - 1]);
      Reading(after, if event.Some? then before.events + [event.value] else before.events)
  }

  /** Interpreting a whole stream, opened with a cursor. */
  function Interpret(cursor: string, text: string): Reading {
    ProcessAll(Stream(cursor, cursor, None, "", ""), Lines(StripMark(text)).lines)
  }

  // ---------------------------------------------------------------------------
  // The parser's list of data lines stands for the standard's data buffer
  // ---------------------------------------------------------------------------

  function Terminated(parts: seq<string>): string {
    if parts == [] then "" else Terminated(parts[..|parts| - 1]) + parts[|parts| - 1] + "\n"
  }

  function Abstract(core: Core): Stream {
    Stream(core.lastEventId, core.idBuffer, core.retry, Terminated(core.data), core.kind)
  }

  ghost predicate Tallied(core: Core) {
    core.dataChars == |Terminated(core.data)|
  }

  lemma {:induction false} JoinIsTerminatedLessOne(parts: seq<string>)
    requires parts != []
    ensures Terminated(parts) == Join(parts) + "\n"
  {
    var last := parts[|parts| - 1];
    if |parts| == 1 {
      assert parts[..0] == [];
      assert "" + parts[0] == parts[0];
    } else {
      JoinIsTerminatedLessOne(parts[..|parts| - 1]);
    }
  }

  lemma ConsumeRefines(core: Core, line: string)
    requires Tallied(core)
    ensures
      var (after, event) := Consume(core, line);
      Tallied(after) && (Abstract(after), event) == ProcessLine(Abstract(core), line)
  {
    if line == "" {
      if core.data != [] {
        JoinIsTerminatedLessOne(core.data);
        assert (Join(core.data) + "\n")[..|Join(core.data)|] == Join(core.data);
      }
    } else {
      var name, value := FieldName(line), FieldValue(line);
      assert (core.data + [value])[..|core.data|] == core.data;
      if ':' !in line {
        assert FirstColon(line) == |line| && line[..|line|] == line;
      }
    }
  }

  lemma {:induction false} ConsumeAllRefines(core: Core, lines: seq<string>)
    requires Tallied(core)
    ensures
      var outcome := ConsumeAll(core, lines);
      && Tallied(outcome.core)
      && ProcessAll(Abstract(core), lines) == Reading(Abstract(outcome.core), outcome.events)
  {
    if lines != [] {
      ConsumeAllRefines(core, lines[..|lines| - 1]);
      ConsumeRefines(ConsumeAll(core, lines[..|lines| - 1]).core, lines[|lines| - 1]);
    }
  }

  /** The parser's events and its state are the standard's, for every text. */
  lemma ParserMatchesStandard(cursor: string, text: string)
    ensures Events(cursor, text) == Interpret(cursor, text).events
    ensures Abstract(Parsed(cursor, text).core) == Interpret(cursor, text).stream
    ensures Tallied(Parsed(cursor, text).core)
  {
    ConsumeAllRefines(Opened(cursor), Lines(StripMark(text)).lines);
  }

  // ---------------------------------------------------------------------------
  // Overflow
  // ---------------------------------------------------------------------------

  /** How many characters some lines take, each with at least one terminator. */
  function Extent(lines: seq<string>): nat {
    if lines == [] then 0 else Extent(lines[..|lines| - 1]) + |lines[|lines| - 1]| + 1
  }

  lemma {:induction false} ExtentLed(line: string, lines: seq<string>)
    ensures Extent([line] + lines) == |line| + 1 + Extent(lines)
  {
    var all := [line] + lines;
    if lines == [] {
      assert all[..0] == [];
    } else {
      assert all[..|all| - 1] == [line] + lines[..|lines| - 1];
      ExtentLed(line, lines[..|lines| - 1]);
    }
  }

  lemma {:induction false} LinesFitText(s: string)
    ensures Extent(Lines(s).lines) + |Lines(s).rest| <= |s|
    decreases |s|
  {
    if FirstTerminator(s) < |s| {
      LinesFitText(AfterFirst(s));
      ExtentLed(s[..FirstTerminator(s)], Lines(AfterFirst(s)).lines);
    }
  }

  lemma {:induction false} DataFitsLines(core: Core, lines: seq<string>)
    ensures ConsumeAll(core, lines).core.dataChars <= core.dataChars + Extent(lines)
  {
    if lines != [] { DataFitsLines(core, lines[..|lines| - 1]); }
  }

  /** What the parser holds is never more than the text it was given. */
  lemma HeldFitsText(cursor: string, text: string)
    ensures |Parsed(cursor, text).buffer| + Parsed(cursor, text).core.dataChars <= |StripMark(text)|
  {
    LinesFitText(StripMark(text));
    DataFitsLines(Opened(cursor), Lines(StripMark(text)).lines);
  }

  /** A text that fits when fed whole fits however it is cut. */
  lemma WholeFitsSoChunkFits(cursor: string, before: string, chunk: string, after: string)
    requires !Overflows(cursor, "", before + chunk + after)
    ensures !Overflows(cursor, before, chunk)
  {
    HeldFitsText(cursor, before);
    if chunk != "" {
      MarkedConcat(before, chunk + after);
      assert before + chunk + after == before + (chunk + after);
      LinesUnterminated("");
      if before == "" {
        assert |StripMark(chunk)| <= |StripMark(chunk + after)|;
      }
    }
  }

  // ---------------------------------------------------------------------------
  // Any chunking
  // ---------------------------------------------------------------------------

  /**
   * Feeds the chunks in turn. Without overflow the events and the state are those of the
   * standard on the whole text, and a text that fits whole does not overflow.
   */
  method FeedAll(cursor: string, chunks: seq<string>) returns (parser: SseParser, events: seq<Event>, overflow: bool)
    ensures fresh(parser)
    ensures !overflow ==>
      && parser.State() == Parsed(cursor, Concat(chunks))
      && events == Interpret(cursor, Concat(chunks)).events
      && Abstract(parser.CoreState()) == Interpret(cursor, Concat(chunks)).stream
    ensures !Overflows(cursor, "", Concat(chunks)) ==> !overflow
  {
    parser := new SseParser(cursor);
    events, overflow := [], false;
    assert chunks[..0] == [];
    for i := 0 to |chunks|
      invariant fresh(parser) && !overflow
      invariant parser.State() == Parsed(cursor, Concat(chunks[..i]))
      invariant events == Events(cursor, Concat(chunks[..i]))
    {
      ghost var text := Concat(chunks[..i]);
      assert chunks[..i + 1][..i] == chunks[..i];
      ConcatSplits(chunks, i);
      if !Overflows(cursor, "", Concat(chunks)) {
        WholeFitsSoChunkFits(cursor, text, chunks[i], Concat(chunks[i + 1..]));
      }
      var more;
      more, overflow := parser.Feed(chunks[i], cursor, text);
      if overflow { return; }
      events := events + more;
    }
    assert chunks[..|chunks|] == chunks;
    ParserMatchesStandard(cursor, Concat(chunks));
  }

  lemma {:induction false} ConcatSplits(chunks: seq<string>, i: nat)
    requires i < |chunks|
    ensures Concat(chunks) == Concat(chunks[..i]) + chunks[i] + Concat(chunks[i + 1..])
    decreases |chunks|
  {
    var n := |chunks| - 1;
    if i == n {
      assert chunks[i + 1..] == [] && chunks[..n] == chunks[..i];
    } else {
      var init := chunks[..n];
      ConcatSplits(init, i);
      assert init[..i] == chunks[..i] && chunks[i + 1..][..n - i - 1] == init[i + 1..];
      assert Concat(chunks[i + 1..]) == Concat(init[i + 1..]) + chunks[n];
    }
  }
}
