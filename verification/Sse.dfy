/** Parsing `text/event-stream` incrementally (src/jmap/push/sse.py). */
module Sse {
  import opened Wrappers
  import opened Decimals

  datatype Event = Event(kind: string, data: string, lastEventId: string, retry: Option<nat>)

  const BYTE_ORDER_MARK := '\U{FEFF}'
  const MAX_EVENT_CHARS := 0x40_0000
  const MAX_RETRY_DIGITS := 15
  const DEFAULT_EVENT_TYPE := "message"

  // ---------------------------------------------------------------------------
  // Lines
  // ---------------------------------------------------------------------------

  predicate IsTerminator(c: char) {
    c == '\r' || c == '\n'
  }

  /** Where the first CR or LF at or after `i` is; the length when there is none. */
  function NextTerminator(s: string, i: nat): (k: nat)
    requires i <= |s|
    ensures i <= k <= |s|
    ensures k < |s| ==> IsTerminator(s[k])
    ensures forall j :: i <= j < k ==> !IsTerminator(s[j])
    decreases |s| - i
  {
    if i == |s| || IsTerminator(s[i]) then i else NextTerminator(s, i + 1)
  }

  function FirstTerminator(s: string): (k: nat)
    ensures k <= |s|
    ensures k < |s| ==> IsTerminator(s[k])
    ensures forall j :: 0 <= j < k ==> !IsTerminator(s[j])
  {
    NextTerminator(s, 0)
  }

  /** How long the terminator at `i` is: CRLF counts as one. */
  function TerminatorLength(s: string, i: nat): nat
    requires i < |s|
  {
    if s[i] == '\r' && i + 1 < |s| && s[i + 1] == '\n' then 2 else 1
  }

  datatype Split = Split(lines: seq<string>, rest: string)

  /** The terminated lines of a text, and what follows the last terminator. */
  function Lines(s: string): Split
    decreases |s|
  {
    var i := FirstTerminator(s);
    if i == |s| then Split([], s)
    else
      var tail := Lines(s[i + TerminatorLength(s, i)..]);
      Split([s[..i]] + tail.lines, tail.rest)
  }

  predicate EndsInCr(s: string) {
    s != "" && s[|s| - 1] == '\r'
  }

  /** A LF that follows a CR seen before belongs to it. */
  function Continued(before: string, chunk: string): string {
    if EndsInCr(before) && chunk != "" && chunk[0] == '\n' then chunk[1..] else chunk
  }

  lemma FirstTerminatorIs(s: string, i: nat)
    requires i < |s| && IsTerminator(s[i])
    requires forall j :: 0 <= j < i ==> !IsTerminator(s[j])
    ensures FirstTerminator(s) == i
  {
    assert FirstTerminator(s) <= i;
  }

  /** What is left of `a` after its first terminator. */
  function AfterFirst(a: string): string
    requires FirstTerminator(a) < |a|
  {
    a[FirstTerminator(a) + TerminatorLength(a, FirstTerminator(a))..]
  }

  lemma FirstInConcat(a: string, b: string)
    requires FirstTerminator(a) < |a|
    ensures FirstTerminator(a + b) == FirstTerminator(a)
    ensures (a + b)[..FirstTerminator(a)] == a[..FirstTerminator(a)]
  {
    FirstTerminatorIs(a + b, FirstTerminator(a));
  }

  /** A terminator that ends in `a` leaves the same rest, with `b` after it. */
  lemma RestOfConcat(a: string, b: string, i: nat)
    requires i < |a| && !(a[i] == '\r' && i + 1 == |a| && b != "" && b[0] == '\n')
    ensures TerminatorLength(a + b, i) == TerminatorLength(a, i)
    ensures (a + b)[i + TerminatorLength(a, i)..] == a[i + TerminatorLength(a, i)..] + b
  {
    var j := i + TerminatorLength(a, i);
    assert i + 1 < |a| ==> (a + b)[i + 1] == a[i + 1];
    assert i + 1 == |a| && b != "" ==> (a + b)[i + 1] == b[0];
    assert j <= |a| && TerminatorLength(a + b, i) == TerminatorLength(a, i);
    assert (a + b)[j..] == a[j..] + b;
  }

  /** Appending text changes the first terminator only when it completes a CRLF. */
  lemma FirstOfConcat(a: string, b: string)
    requires FirstTerminator(a) < |a|
    ensures FirstTerminator(a + b) == FirstTerminator(a)
    ensures (a + b)[..FirstTerminator(a)] == a[..FirstTerminator(a)]
    ensures AfterFirst(a) == "" && Continued(a, b) != b ==> AfterFirst(a + b) == Continued(a, b)
    ensures AfterFirst(a) != "" || Continued(a, b) == b ==> AfterFirst(a + b) == AfterFirst(a) + b
  {
    var i := FirstTerminator(a);
    FirstInConcat(a, b);
    if a[i] == '\r' && i + 1 == |a| && b != "" && b[0] == '\n' {
      assert (a + b)[i + 1] == b[0];
      assert (a + b)[i + 2..] == b[1..];
    } else {
      RestOfConcat(a, b, i);
    }
  }

  lemma ContinuedAfterFirst(a: string, b: string)
    requires FirstTerminator(a) < |a|
    ensures AfterFirst(a) != "" ==> Continued(AfterFirst(a), b) == Continued(a, b)
    ensures AfterFirst(a) == "" && Continued(a, b) == b ==> Continued(AfterFirst(a), b) == b
  {}

  /** The lines of `a` followed by `b`, told from the lines of `a`. */
  function Extended(of: Split, more: Split): Split {
    Split(of.lines + more.lines, more.rest)
  }

  function Led(line: string, of: Split): Split {
    Split([line] + of.lines, of.rest)
  }

  lemma LedExtended(line: string, of: Split, more: Split)
    ensures Extended(Led(line, of), more) == Led(line, Extended(of, more))
  {
    assert ([line] + of.lines) + more.lines == [line] + (of.lines + more.lines);
  }

  lemma LedOnto(done: seq<string>, line: string, more: Split)
    ensures Extended(Split(done, ""), Led(line, more)) == Extended(Split(done + [line], ""), more)
  {
    assert done + ([line] + more.lines) == (done + [line]) + more.lines;
  }

  lemma LinesLed(s: string)
    requires FirstTerminator(s) < |s|
    ensures Lines(s) == Led(s[..FirstTerminator(s)], Lines(AfterFirst(s)))
  {}

  lemma LinesUnterminated(s: string)
    requires FirstTerminator(s) == |s|
    ensures Lines(s) == Split([], s)
  {}

  /** A CRLF split over two chunks ends one line, not two. */
  lemma LinesSplitCrlf(a: string, b: string)
    requires FirstTerminator(a) < |a| && AfterFirst(a) == "" && Continued(a, b) != b
    ensures Lines(a + b) == Extended(Lines(a), Lines(Lines(a).rest + Continued(a, b)))
  {
    var line := a[..FirstTerminator(a)];
    FirstOfConcat(a, b);
    LinesLed(a + b);
    LinesLed(a);
    LinesUnterminated("");
    assert Lines(a) == Split([line], "");
    assert "" + Continued(a, b) == Continued(a, b);
  }

  /** Lines can be split off a chunk at a time. */
  lemma {:induction false} LinesConcat(a: string, b: string)
    ensures Lines(a + b) == Extended(Lines(a), Lines(Lines(a).rest + Continued(a, b)))
    decreases |a|
  {
    if FirstTerminator(a) == |a| {
      LinesUnterminated(a);
      assert Continued(a, b) == b;
    } else if AfterFirst(a) == "" && Continued(a, b) != b {
      LinesSplitCrlf(a, b);
    } else {
      var rest := AfterFirst(a);
      FirstOfConcat(a, b);
      ContinuedAfterFirst(a, b);
      assert Continued(rest, b) == Continued(a, b);
      LinesConcat(rest, b);
      LinesLed(a);
      LinesLed(a + b);
      LedExtended(a[..FirstTerminator(a)], Lines(rest), Lines(Lines(rest).rest + Continued(a, b)));
    }
  }

  // ---------------------------------------------------------------------------
  // One line
  // ---------------------------------------------------------------------------

  // The event being assembled, and what outlives it.
  datatype Core = Core(
    lastEventId: string,
    idBuffer: string,
    retry: Option<nat>,
    data: seq<string>,
    dataChars: nat,
    kind: string)

  function FirstColon(s: string): (i: nat)
    ensures i <= |s|
    ensures i < |s| ==> s[i] == ':'
    ensures forall j :: 0 <= j < i ==> s[j] != ':'
  {
    if s == "" || s[0] == ':' then 0 else 1 + FirstColon(s[1..])
  }

  function FieldName(line: string): string {
    line[..FirstColon(line)]
  }

  /** What follows the colon, less one leading space. */
  function FieldValue(line: string): (value: string)
    ensures |value| <= |line|
  {
    var i := FirstColon(line);
    if i == |line| then ""
    else
      var value := line[i + 1..];
      if value != "" && value[0] == ' ' then value[1..] else value
  }

  /** Some for a usable `retry` value: ASCII digits, and not too many of them. */
  function RetryValue(value: string): Option<nat> {
    if value != "" && |value| <= MAX_RETRY_DIGITS && AllDigits(value) then Some(Value(value)) else None
  }

  function Join(parts: seq<string>): string {
    if parts == [] then ""
    else if |parts| == 1 then parts[0]
    else Join(parts[..|parts| - 1]) + "\n" + parts[|parts| - 1]
  }

  function WithField(core: Core, name: string, value: string): Core {
    if name == "event" then core.(kind := value)
    else if name == "data" then core.(data := core.data + [value], dataChars := core.dataChars + |value| + 1)
    else if name == "id" && '\0' !in value then core.(idBuffer := value)
    else if name == "retry" && RetryValue(value).Some? then core.(retry := RetryValue(value))
    else core
  }

  /** A blank line: the held id takes effect, and an event with data is delivered. */
  function Dispatch(core: Core): (Core, Option<Event>) {
    var moved := core.(lastEventId := core.idBuffer, kind := "");
    if core.data == [] then (moved, None)
    else
      var kind := if core.kind == "" then DEFAULT_EVENT_TYPE else core.kind;
      (moved.(data := [], dataChars := 0), Some(Event(kind, Join(core.data), core.idBuffer, core.retry)))
  }

  function Consume(core: Core, line: string): (Core, Option<Event>) {
    if line == "" then Dispatch(core)
    else if line[0] == ':' then (core, None)
    else (WithField(core, FieldName(line), FieldValue(line)), None)
  }

  datatype Outcome = Outcome(core: Core, events: seq<Event>)

  function ConsumeAll(core: Core, lines: seq<string>): Outcome {
    if lines == [] then Outcome(core, [])
    else
      var before := ConsumeAll(core, lines[..|lines| - 1]);
      var (after, event) := Consume(before.core, lines[|lines| - 1]);
      Outcome(after, before.events + AsList(event))
  }

  function AsList(event: Option<Event>): seq<Event> {
    if event.Some? then [event.value] else []
  }

  lemma ConsumeMore(core: Core, lines: seq<string>, line: string)
    ensures
      var before := ConsumeAll(core, lines);
      var (after, event) := Consume(before.core, line);
      ConsumeAll(core, lines + [line]) == Outcome(after, before.events + AsList(event))
  {
    assert (lines + [line])[..|lines|] == lines;
  }

  lemma {:induction false} ConsumeConcat(core: Core, first: seq<string>, rest: seq<string>)
    ensures
      var a := ConsumeAll(core, first);
      var b := ConsumeAll(a.core, rest);
      ConsumeAll(core, first + rest) == Outcome(b.core, a.events + b.events)
    decreases |rest|
  {
    if rest == [] {
      assert first + rest == first;
    } else {
      assert (first + rest)[..|first + rest| - 1] == first + rest[..|rest| - 1];
      ConsumeConcat(core, first, rest[..|rest| - 1]);
    }
  }

  // ---------------------------------------------------------------------------
  // A whole text
  // ---------------------------------------------------------------------------

  function Opened(lastEventId: string): Core {
    Core(lastEventId, lastEventId, None, [], 0, "")
  }

  /** One leading U+FEFF is a byte-order mark. */
  function StripMark(text: string): string {
    if text != "" && text[0] == BYTE_ORDER_MARK then text[1..] else text
  }

  datatype ParserState = ParserState(core: Core, buffer: string, pendingCr: bool, atStreamStart: bool)

  /** The events of a whole stream opened at `cursor`. */
  function Events(cursor: string, text: string): seq<Event> {
    ConsumeAll(Opened(cursor), Lines(StripMark(text)).lines).events
  }

  /** Where a parser stands after a whole stream opened at `cursor`. */
  function Parsed(cursor: string, text: string): ParserState {
    var split := Lines(StripMark(text));
    ParserState(ConsumeAll(Opened(cursor), split.lines).core, split.rest, EndsInCr(StripMark(text)), text == "")
  }

  /** The part of a chunk that is new text: not a mark at the start, not the LF of a split CRLF. */
  function NewText(text: string, chunk: string): string {
    if text == "" then StripMark(chunk) else Continued(StripMark(text), chunk)
  }

  lemma MarkedConcat(text: string, chunk: string)
    ensures text != "" ==> StripMark(text + chunk) == StripMark(text) + chunk
    ensures text == "" ==> text + chunk == chunk
  {}

  lemma LinesOfMore(text: string, chunk: string)
    ensures Lines(StripMark(text + chunk))
         == Extended(Lines(StripMark(text)), Lines(Lines(StripMark(text)).rest + NewText(text, chunk)))
  {
    MarkedConcat(text, chunk);
    if text == "" {
      LinesUnterminated("");
      assert "" + StripMark(chunk) == StripMark(chunk);
      var more := Lines(StripMark(chunk));
      assert Extended(Split([], ""), more) == more;
    } else {
      LinesConcat(StripMark(text), chunk);
    }
  }

  /** A chunk continues the parse from the buffered rest. */
  lemma ParsedStep(cursor: string, text: string, chunk: string)
    ensures
      var before := Parsed(cursor, text);
      var split := Lines(before.buffer + NewText(text, chunk));
      var outcome := ConsumeAll(before.core, split.lines);
      && Parsed(cursor, text + chunk).core == outcome.core
      && Parsed(cursor, text + chunk).buffer == split.rest
      && Events(cursor, text + chunk) == Events(cursor, text) + outcome.events
  {
    LinesOfMore(text, chunk);
    var was := Lines(StripMark(text));
    var split := Lines(was.rest + NewText(text, chunk));
    ConsumeConcat(Opened(cursor), was.lines, split.lines);
  }

  // ---------------------------------------------------------------------------
  // The incremental parser
  // ---------------------------------------------------------------------------

  class SseParser {
    var lastEventId: string
    var retry: Option<nat>
    var buffer: string
    var data: seq<string>
    var dataChars: nat
    var kind: string
    var pendingCr: bool
    var atStreamStart: bool
    var idBuffer: string

    function CoreState(): Core
      reads this
    {
      Core(lastEventId, idBuffer, retry, data, dataChars, kind)
    }

    function State(): ParserState
      reads this
    {
      ParserState(CoreState(), buffer, pendingCr, atStreamStart)
    }

    constructor (lastEventId: string)
      ensures State() == Parsed(lastEventId, "")
    {
      this.lastEventId, idBuffer := lastEventId, lastEventId;
      retry, buffer, data, dataChars, kind := None, "", [], 0, "";
      pendingCr, atStreamStart := false, true;
    }

    method ConsumeLine(line: string) returns (event: Option<Event>)
      modifies `lastEventId, `retry, `data, `dataChars, `kind, `idBuffer
      ensures (CoreState(), event) == Consume(old(CoreState()), line)
    {
      event := None;
      if line == "" {
        lastEventId := idBuffer;
        if data != [] {
          event := Some(Event(if kind == "" then DEFAULT_EVENT_TYPE else kind, Join(data), lastEventId, retry));
          data := [];
          dataChars := 0;
        }
        kind := "";
      } else if line[0] != ':' {
        var name, value := FieldName(line), FieldValue(line);
        if name == "event" {
          kind := value;
        } else if name == "data" {
          data := data + [value];
          dataChars := dataChars + |value| + 1;
        } else if name == "id" && '\0' !in value {
          idBuffer := value;
        } else if name == "retry" && RetryValue(value).Some? {
          retry := RetryValue(value);
        }
      }
    }

    /** Consumes the line after `done`, and adds the event it completes. */
    method Take(line: string, events: seq<Event>, ghost core: Core, ghost done: seq<string>)
      returns (more: seq<Event>, delivered: bool)
      requires Outcome(CoreState(), events) == ConsumeAll(core, done)
      modifies `lastEventId, `retry, `data, `dataChars, `kind, `idBuffer
      ensures Outcome(CoreState(), more) == ConsumeAll(core, done + [line])
      ensures delivered <==> |more| == |events| + 1
    {
      ConsumeMore(core, done, line);
      var event := ConsumeLine(line);
      more, delivered := events, event.Some?;
      if delivered { more := more + [event.value]; }
    }

    /**
     * Consumes the line at `position`, when it is complete; `next` is where the one after it
     * starts.
     */
    method ScanLine(whole: string, position: nat, events: seq<Event>, ghost core: Core, ghost done: seq<string>)
      returns (more: seq<Event>, next: nat, complete: bool, ghost done': seq<string>)
      requires position < |whole|
      requires Outcome(CoreState(), events) == ConsumeAll(core, done)
      requires SplitAt(whole, done, position)
      modifies `lastEventId, `retry, `data, `dataChars, `kind, `idBuffer, `buffer, `pendingCr
      ensures Outcome(CoreState(), more) == ConsumeAll(core, done')
      ensures !complete ==>
        && done' == done && next == position && pendingCr == old(pendingCr) && !EndsInCr(whole)
        && Lines(whole[position..]) == Split([], whole[position..])
      ensures complete ==>
        && position < next <= |whole|
        && SplitAt(whole, done', next)
        && (pendingCr <==> old(pendingCr) || (next == |whole| && EndsInCr(whole)))
    {
      more, next, complete, done' := events, position, false, done;
      var index := NextTerminator(whole, position);
      if index == |whole| {
        NoLineAhead(whole, position);
        return;
      }
      var line := whole[position..index];
      complete, next := true, index + TerminatorLength(whole, index);
      LineAhead(whole, position, index, next, done);
      CrIsLast(whole, index, next);
      if whole[index] == '\r' && index + 1 == |whole| { pendingCr := true; }
      done' := done + [line];
      var delivered;
      more, delivered := Take(line, events, core, done);
      if delivered { buffer := whole[next..]; }
    }

    /** Consumes every complete line of `whole` and keeps the rest. */
    method Scan(whole: string) returns (events: seq<Event>)
      modifies `lastEventId, `retry, `data, `dataChars, `kind, `idBuffer, `buffer, `pendingCr
      ensures Outcome(CoreState(), events) == ConsumeAll(old(CoreState()), Lines(whole).lines)
      ensures buffer == Lines(whole).rest
      ensures pendingCr <==> old(pendingCr) || EndsInCr(whole)
    {
      events := [];
      ghost var core, done: seq<string> := CoreState(), [];
      var position, complete := 0, true;
      LinesFromStart(whole);
      while position < |whole| && complete
        invariant 0 <= position <= |whole|
        invariant pendingCr <==> old(pendingCr) || (position == |whole| && EndsInCr(whole))
        invariant SplitAt(whole, done, position)
        invariant Outcome(CoreState(), events) == ConsumeAll(core, done)
        invariant !complete ==>
          position < |whole| && !EndsInCr(whole) && Lines(whole[position..]) == Split([], whole[position..])
        decreases |whole| - position, complete
      {
        events, position, complete, done := ScanLine(whole, position, events, core, done);
      }
      buffer := whole[position..];
      if position == |whole| { LinesUnterminated(buffer); }
      assert done + [] == done;
    }

    /** Drops what a chunk repeats: the LF of a CRLF already counted, and the stream's first mark. */
    method Admit(chunk: string, ghost text: string) returns (added: string)
      requires chunk != "" && pendingCr == EndsInCr(StripMark(text)) && atStreamStart == (text == "")
      modifies `pendingCr, `atStreamStart
      ensures added == NewText(text, chunk) && !pendingCr && !atStreamStart
    {
      added := chunk;
      if pendingCr {
        pendingCr := false;
        if added[0] == '\n' { added := added[1..]; }
      }
      if atStreamStart {
        atStreamStart := false;
        added := StripMark(added);
      }
    }

    /**
     * Consumes a chunk of the stream. Whatever the chunks so far were, their text alone
     * decides the events and the state.
     */
    method Feed(chunk: string, ghost cursor: string, ghost text: string)
      returns (events: seq<Event>, overflow: bool)
      requires State() == Parsed(cursor, text)
      modifies this
      ensures overflow <==> Overflows(cursor, text, chunk)
      ensures overflow ==> events == [] && lastEventId == old(lastEventId) && retry == old(retry)
      ensures !overflow ==> State() == Parsed(cursor, text + chunk)
      ensures !overflow ==> Events(cursor, text + chunk) == Events(cursor, text) + events
    {
      events, overflow := [], false;
      if chunk == "" {
        assert text + chunk == text;
        return;
      }
      var added := Admit(chunk, text);
      if |buffer + added| + dataChars > MAX_EVENT_CHARS { return [], true; }
      events := Scan(buffer + added);
      ScannedIsParsed(cursor, text, chunk, CoreState(), events);
    }
  }

  /** Scanning the held rest and the new text leaves the parser where the whole text would. */
  lemma ScannedIsParsed(cursor: string, text: string, chunk: string, core: Core, events: seq<Event>)
    requires chunk != ""
    requires
      var before := Parsed(cursor, text);
      Outcome(core, events) == ConsumeAll(before.core, Lines(before.buffer + NewText(text, chunk)).lines)
    ensures
      var whole := Parsed(cursor, text).buffer + NewText(text, chunk);
      Parsed(cursor, text + chunk) == ParserState(core, Lines(whole).rest, EndsInCr(whole), false)
    ensures Events(cursor, text + chunk) == Events(cursor, text) + events
  {
    ParsedStep(cursor, text, chunk);
    RestUnterminated(StripMark(text));
    CrAtEnd(text, chunk, Parsed(cursor, text).buffer);
  }

  /** A line ended by the last character, a CR, is one that the text ends with. */
  lemma CrIsLast(whole: string, index: nat, next: nat)
    requires index < |whole| && IsTerminator(whole[index]) && next == index + TerminatorLength(whole, index)
    ensures whole[index] == '\r' && index + 1 == |whole| <==> next == |whole| && EndsInCr(whole)
  {}

  lemma LinesFromStart(whole: string)
    ensures SplitAt(whole, [], 0)
  {
    assert whole[0..] == whole;
    assert [] + Lines(whole).lines == Lines(whole).lines;
  }

  lemma NoLineAhead(whole: string, position: nat)
    requires position < |whole| && NextTerminator(whole, position) == |whole|
    ensures Lines(whole[position..]) == Split([], whole[position..])
    ensures !EndsInCr(whole)
  {
    var ahead := whole[position..];
    forall j | 0 <= j < |ahead| ensures !IsTerminator(ahead[j]) {
      assert ahead[j] == whole[position + j];
    }
    LinesUnterminated(ahead);
    assert !IsTerminator(whole[|whole| - 1]);
  }

  lemma TerminatorAhead(whole: string, position: nat, index: nat)
    requires position < |whole| && index == NextTerminator(whole, position) < |whole|
    ensures
      var ahead := whole[position..];
      && FirstTerminator(ahead) == index - position
      && ahead[..FirstTerminator(ahead)] == whole[position..index]
      && AfterFirst(ahead) == whole[index + TerminatorLength(whole, index)..]
  {
    var ahead, k := whole[position..], index - position;
    FirstTerminatorIs(ahead, k);
    assert ahead[k] == whole[index] && (k + 1 < |ahead| ==> ahead[k + 1] == whole[index + 1]);
    assert TerminatorLength(ahead, k) == TerminatorLength(whole, index);
  }

  lemma LineSplitsOff(whole: string, position: nat, index: nat)
    requires position < |whole| && index == NextTerminator(whole, position) < |whole|
    ensures Lines(whole[position..])
         == Led(whole[position..index], Lines(whole[index + TerminatorLength(whole, index)..]))
  {
    TerminatorAhead(whole, position, index);
    LinesLed(whole[position..]);
  }

  /** The lines before `position` are those done, and what follows is split on its own. */
  ghost predicate SplitAt(whole: string, done: seq<string>, position: nat)
    requires position <= |whole|
  {
    Lines(whole) == Extended(Split(done, ""), Lines(whole[position..]))
  }

  lemma LineAhead(whole: string, position: nat, index: nat, next: nat, done: seq<string>)
    requires position < |whole| && index == NextTerminator(whole, position) < |whole|
    requires next == index + TerminatorLength(whole, index) && SplitAt(whole, done, position)
    ensures SplitAt(whole, done + [whole[position..index]], next)
  {
    LineSplitsOff(whole, position, index);
    LedOnto(done, whole[position..index], Lines(whole[next..]));
  }

  /** Whether feeding `chunk` after `text` would hold more than one event may. */
  ghost predicate Overflows(cursor: string, text: string, chunk: string) {
    var before := Parsed(cursor, text);
    chunk != "" && |before.buffer + NewText(text, chunk)| + before.core.dataChars > MAX_EVENT_CHARS
  }

  lemma {:induction false} RestUnterminated(s: string)
    ensures FirstTerminator(Lines(s).rest) == |Lines(s).rest|
    decreases |s|
  {
    if FirstTerminator(s) < |s| {
      LinesLed(s);
      RestUnterminated(AfterFirst(s));
    }
  }

  lemma LastOfConcat(a: string, b: string)
    ensures b != "" ==> (EndsInCr(a + b) <==> EndsInCr(b))
    ensures b == "" ==> a + b == a
  {}

  /** The text ends in a CR exactly when what the parser scans for a chunk does. */
  lemma CrAtEnd(text: string, chunk: string, buffer: string)
    requires chunk != "" && !EndsInCr(buffer)
    ensures EndsInCr(StripMark(text + chunk)) <==> EndsInCr(buffer + NewText(text, chunk))
  {
    MarkedConcat(text, chunk);
    LastOfConcat(buffer, NewText(text, chunk));
    LastOfConcat(StripMark(text), chunk);
  }
}
