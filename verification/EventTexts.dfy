/** Events written out as stream text, and what the parser of src/jmap/push/sse.py makes of them. */
module EventTexts {
  import opened Wrappers
  import opened Sse
  import opened Resume

  predicate Unbroken(s: string) {
    forall i :: 0 <= i < |s| ==> !IsTerminator(s[i])
  }

  /** A value that a field line carries as it is. */
  predicate Plain(value: string) {
    Unbroken(value) && (value != "" ==> value[0] != ' ')
  }

  function FieldLine(name: string, value: string): string {
    name + ":" + value
  }

  /** Lines on the wire, each with its LF. */
  function TextOf(lines: seq<string>): string {
    if lines == [] then "" else lines[0] + "\n" + TextOf(lines[1..])
  }

  /** An event on the wire: its id, kind and data, a line each, and a blank line. */
  function EventText(id: string, kind: string, data: string): string {
    TextOf(EventLines(id, kind, data))
  }

  function EventLines(id: string, kind: string, data: string): seq<string> {
    [FieldLine("id", id), FieldLine("event", kind), FieldLine("data", data), ""]
  }

  // ---------------------------------------------------------------------------
  // Its lines
  // ---------------------------------------------------------------------------

  lemma LineThen(line: string, rest: string)
    requires Unbroken(line)
    ensures Lines(line + "\n" + rest) == Led(line, Lines(rest))
  {
    var text := line + "\n" + rest;
    assert text[|line|] == '\n';
    FirstTerminatorIs(text, |line|);
    LinesLed(text);
    assert text[..|line|] == line && text[|line| + 1..] == rest;
  }

  lemma FieldLineUnbroken(name: string, value: string)
    requires Unbroken(name) && Unbroken(value)
    ensures Unbroken(FieldLine(name, value))
  {}

  lemma {:induction false} TextLines(lines: seq<string>)
    requires forall i :: 0 <= i < |lines| ==> Unbroken(lines[i])
    ensures Lines(TextOf(lines)) == Split(lines, "")
    decreases |lines|
  {
    if lines == [] {
      LinesUnterminated("");
    } else {
      TextLines(lines[1..]);
      LineThen(lines[0], TextOf(lines[1..]));
      assert [lines[0]] + lines[1..] == lines;
    }
  }

  lemma EventTextLines(id: string, kind: string, data: string)
    requires Unbroken(id) && Unbroken(kind) && Unbroken(data)
    ensures Lines(EventText(id, kind, data)) == Split(EventLines(id, kind, data), "")
  {
    FieldLineUnbroken("id", id);
    FieldLineUnbroken("event", kind);
    FieldLineUnbroken("data", data);
    TextLines(EventLines(id, kind, data));
  }

  lemma EventTextUnmarked(id: string, kind: string, data: string)
    ensures StripMark(EventText(id, kind, data)) == EventText(id, kind, data)
  {
    assert EventText(id, kind, data)[0] == 'i';
  }

  // ---------------------------------------------------------------------------
  // One line at a time
  // ---------------------------------------------------------------------------

  lemma {:induction false} ColonEndsName(name: string, value: string)
    requires forall i :: 0 <= i < |name| ==> name[i] != ':'
    ensures FirstColon(FieldLine(name, value)) == |name|
  {
    var line := FieldLine(name, value);
    if name != "" {
      assert line[1..] == FieldLine(name[1..], value);
      ColonEndsName(name[1..], value);
    }
  }

  /** Name and value come back apart. */
  lemma FieldLineParts(name: string, value: string)
    requires name != "" && (forall i :: 0 <= i < |name| ==> name[i] != ':') && Plain(value)
    ensures var line := FieldLine(name, value);
      line != "" && line[0] != ':' && FieldName(line) == name && FieldValue(line) == value
  {
    ColonEndsName(name, value);
    var line := FieldLine(name, value);
    assert line[..|name|] == name && line[|name| + 1..] == value && line[0] == name[0];
  }

  lemma ConsumeId(core: Core, id: string)
    requires Plain(id) && '\0' !in id
    ensures Consume(core, FieldLine("id", id)) == (core.(idBuffer := id), None)
  {
    FieldLineParts("id", id);
    assert "id"[0] != "event"[0] && "id"[0] != "data"[0];
  }

  lemma ConsumeKind(core: Core, kind: string)
    requires Plain(kind)
    ensures Consume(core, FieldLine("event", kind)) == (core.(kind := kind), None)
  {
    FieldLineParts("event", kind);
  }

  lemma ConsumeData(core: Core, data: string)
    requires Plain(data)
    ensures Consume(core, FieldLine("data", data))
         == (core.(data := core.data + [data], dataChars := core.dataChars + |data| + 1), None)
  {
    FieldLineParts("data", data);
    assert "data"[0] != "event"[0];
  }

  /** The blank line after one line of data. */
  lemma ConsumeBlank(core: Core, data: string)
    requires core.data == [data] && core.kind != ""
    ensures Consume(core, "") == (
      core.(lastEventId := core.idBuffer, kind := "", data := [], dataChars := 0),
      Some(Event(core.kind, data, core.idBuffer, core.retry)))
  {}

  lemma MomentsMore(core: Core, lines: seq<string>, line: string)
    ensures
      var (after, event) := Consume(ConsumeAll(core, lines).core, line);
      MomentsOf(core, lines + [line])
        == MomentsOf(core, lines) + (if line == "" then [Moment(after.lastEventId, event)] else [])
  {
    assert (lines + [line])[..|lines|] == lines;
  }

  /** The lines leave the core so, and have made no moment. */
  ghost predicate Held(core: Core, lines: seq<string>, after: Core) {
    ConsumeAll(core, lines).core == after && MomentsOf(core, lines) == []
  }

  lemma FieldAdds(core: Core, lines: seq<string>, line: string, before: Core, after: Core)
    requires line != "" && Held(core, lines, before) && Consume(before, line) == (after, None)
    ensures Held(core, lines + [line], after)
  {
    ConsumeMore(core, lines, line);
    MomentsMore(core, lines, line);
  }

  lemma IdHeld(cursor: string, id: string)
    requires Plain(id) && '\0' !in id
    ensures Held(Opened(cursor), [FieldLine("id", id)], Core(cursor, id, None, [], 0, ""))
  {
    var start, line := Opened(cursor), FieldLine("id", id);
    ConsumeId(start, id);
    FieldAdds(start, [], line, start, start.(idBuffer := id));
    assert [] + [line] == [line];
  }

  lemma KindHeld(cursor: string, id: string, kind: string)
    requires Plain(id) && Plain(kind) && '\0' !in id
    ensures Held(Opened(cursor), [FieldLine("id", id), FieldLine("event", kind)], Core(cursor, id, None, [], 0, kind))
  {
    var before, line := [FieldLine("id", id)], FieldLine("event", kind);
    IdHeld(cursor, id);
    ConsumeKind(Core(cursor, id, None, [], 0, ""), kind);
    FieldAdds(Opened(cursor), before, line, Core(cursor, id, None, [], 0, ""), Core(cursor, id, None, [], 0, kind));
    assert before + [line] == [FieldLine("id", id), line];
  }

  lemma ConsumeFirstData(cursor: string, id: string, kind: string, data: string)
    requires Plain(data)
    ensures Consume(Core(cursor, id, None, [], 0, kind), FieldLine("data", data))
         == (Core(cursor, id, None, [data], |data| + 1, kind), None)
  {
    ConsumeData(Core(cursor, id, None, [], 0, kind), data);
    assert [] + [data] == [data];
  }

  /** The three field lines of an event, before the blank one. */
  lemma FieldsHeld(cursor: string, id: string, kind: string, data: string)
    requires Plain(id) && Plain(kind) && Plain(data) && '\0' !in id
    ensures Held(Opened(cursor), [FieldLine("id", id), FieldLine("event", kind), FieldLine("data", data)],
                 Core(cursor, id, None, [data], |data| + 1, kind))
  {
    var before, line := [FieldLine("id", id), FieldLine("event", kind)], FieldLine("data", data);
    KindHeld(cursor, id, kind);
    ConsumeFirstData(cursor, id, kind, data);
    FieldAdds(Opened(cursor), before, line, Core(cursor, id, None, [], 0, kind),
              Core(cursor, id, None, [data], |data| + 1, kind));
    assert before + [line] == [FieldLine("id", id), FieldLine("event", kind), line];
  }

  /** A blank line after them makes their moment. */
  lemma BlankEnds(core: Core, fields: seq<string>, id: string, kind: string, data: string, cursor: string)
    requires Held(core, fields, Core(cursor, id, None, [data], |data| + 1, kind)) && kind != ""
    ensures MomentsOf(core, fields + [""]) == [Moment(id, Some(Event(kind, data, id, None)))]
  {
    ConsumeBlank(Core(cursor, id, None, [data], |data| + 1, kind), data);
    MomentsMore(core, fields, "");
  }

  lemma EventLinesMoment(cursor: string, id: string, kind: string, data: string)
    requires Plain(id) && Plain(kind) && Plain(data) && '\0' !in id && kind != ""
    ensures MomentsOf(Opened(cursor), EventLines(id, kind, data)) == [Moment(id, Some(Event(kind, data, id, None)))]
  {
    var fields := [FieldLine("id", id), FieldLine("event", kind), FieldLine("data", data)];
    FieldsHeld(cursor, id, kind, data);
    BlankEnds(Opened(cursor), fields, id, kind, data, cursor);
    assert fields + [""] == EventLines(id, kind, data);
  }

  /** The text of an event makes one moment: the event, under its id. */
  lemma EventTextMoment(cursor: string, id: string, kind: string, data: string)
    requires Plain(id) && Plain(kind) && Plain(data) && '\0' !in id && kind != ""
    ensures Moments(cursor, EventText(id, kind, data)) == [Moment(id, Some(Event(kind, data, id, None)))]
  {
    EventTextUnmarked(id, kind, data);
    EventTextLines(id, kind, data);
    EventLinesMoment(cursor, id, kind, data);
  }
}
