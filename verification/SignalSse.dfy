/** The incremental event-stream parser of the Signal channel. */
module SignalSse {
  import opened Wrappers
  import opened Text

  datatype Event = Event(event: Option<string>, data: Option<string>, id: Option<string>)

  const NO_EVENT := Event(None, None, None)

  /** What a parser holds, with the events it has returned so far. */
  datatype Drained = Drained(events: seq<Event>, buffer: string, current: Event) {
    function After(earlier: seq<Event>): Drained {
      Drained(earlier + events, buffer, current)
    }
  }

  function StripSpace(value: string): string {
    if " " <= value then value[1..] else value
  }

  function ApplyField(current: Event, field: string, value: string): Event {
    if field == "event" then current.(event := Some(value))
    else if field == "data" then
      match current.data
      case Some(existing) => current.(data := Some(existing + "\n" + value))
      case None => current.(data := Some(value))
    else if field == "id" then current.(id := Some(value))
    else current
  }

  function Dispatch(current: Event): seq<Event> {
    if current == NO_EVENT then [] else [current]
  }

  /** One line without its terminator: the events dispatched and the event being built. */
  function ConsumeLine(current: Event, line: string): (seq<Event>, Event) {
    if line == "" then (Dispatch(current), NO_EVENT)
    else if line[0] == ':' then ([], current)
    else
      match IndexOf(line, ':')
      case Some(i) => ([], ApplyField(current, line[..i], StripSpace(line[i + 1..])))
      case None => ([], ApplyField(current, line, ""))
  }

  /** All complete lines of a buffer, consumed in order. */
  function Drain(buffer: string, current: Event): Drained
    decreases |buffer|
  {
    match IndexOf(buffer, '\n')
    case None => Drained([], buffer, current)
    case Some(i) =>
      var (events, next) := ConsumeLine(current, StripCr(buffer[..i]));
      Drain(buffer[i + 1..], next).After(events)
  }

  /** A sequence of pushes. */
  function PushAll(buffer: string, current: Event, chunks: seq<string>): Drained
    decreases |chunks|
  {
    if chunks == [] then Drained([], buffer, current)
    else
      var d := Drain(buffer + chunks[0], current);
      PushAll(d.buffer, d.current, chunks[1..]).After(d.events)
  }

  /** What the end of the stream still yields. */
  function Recovered(buffer: string, current: Event): Option<Event> {
    if AllWhitespace(buffer) && current != NO_EVENT then Some(current) else None
  }

  class SignalSseParser {
    var buffer: string
    var current: Event

    constructor ()
      ensures buffer == "" && current == NO_EVENT
    {
      buffer, current := "", NO_EVENT;
    }

    method TakeCurrent() returns (event: Option<Event>)
      modifies this`current
      ensures current == NO_EVENT
      ensures event == if old(current) == NO_EVENT then None else Some(old(current))
    {
      var taken := current;
      current := NO_EVENT;
      if taken.event.None? && taken.data.None? && taken.id.None? {
        return None;
      }
      return Some(taken);
    }

    method Push(chunk: string) returns (events: seq<Event>)
      modifies this
      ensures Drained(events, buffer, current) == Drain(old(buffer) + chunk, old(current))
      ensures '\n' !in buffer
    {
      hide Drain, ApplyField, IndexOf;
      buffer := buffer + chunk;
      events := [];
      assert Drain(buffer, current).After(events) == Drain(buffer, current) by { AfterNothing(Drain(buffer, current)); }
      var lineEnd := IndexOf(buffer, '\n');
      while lineEnd.Some?
        invariant lineEnd == IndexOf(buffer, '\n')
        invariant Drain(old(buffer) + chunk, old(current)) == Drain(buffer, current).After(events)
        decreases |buffer|
      {
        DrainStep(buffer, lineEnd.value, current, events);
        var line := buffer[..lineEnd.value + 1];
        assert line[..|line| - 1] == buffer[..lineEnd.value];
        buffer := buffer[lineEnd.value + 1..];
        lineEnd := IndexOf(buffer, '\n');
        line := line[..|line| - 1];
        if line != "" && line[|line| - 1] == '\r' {
          line := line[..|line| - 1];
        }
        if line == "" {
          var event := TakeCurrent();
          if event.Some? {
            events := events + [event.value];
          }
          continue;
        }
        if line[0] == ':' {
          continue;
        }
        var colon := IndexOf(line, ':');
        var field := if colon.Some? then line[..colon.value] else line;
        var value := if colon.Some? then line[colon.value + 1..] else "";
        value := StripSpace(value);
        current := ApplyField(current, field, value);
      }
      DrainEnd(buffer, current);
    }

    /** The pending event survives only if no unterminated non-blank line is buffered;
        otherwise it is lost together with whatever that line completed. */
    method Finish() returns (event: Option<Event>)
      requires '\n' !in buffer
      modifies this
      ensures current == NO_EVENT
      ensures event == Recovered(old(buffer), old(current))
      ensures buffer == if AllWhitespace(old(buffer)) then old(buffer) else ""
    {
      if Trim(buffer) != "" {
        ghost var held, partial := current, buffer;
        var dropped := Push("\n\n");
        FlushDropsEverything(partial, held);
      }
      event := TakeCurrent();
    }
  }

  lemma AfterAfter(d: Drained, later: seq<Event>, earlier: seq<Event>)
    ensures d.After(later).After(earlier) == d.After(earlier + later)
  {
    assert earlier + (later + d.events) == earlier + later + d.events;
  }

  lemma AfterNothing(d: Drained)
    ensures d.After([]) == d
  {
    assert [] + d.events == d.events;
  }

  lemma DrainStep(buffer: string, i: nat, current: Event, sofar: seq<Event>)
    requires IndexOf(buffer, '\n') == Some(i)
    ensures var (events, next) := ConsumeLine(current, StripCr(buffer[..i]));
            Drain(buffer, current).After(sofar) ==
            Drain(buffer[i + 1..], next).After(if events == [] then sofar else sofar + events)
  {
    hide ConsumeLine;
    var (events, next) := ConsumeLine(current, StripCr(buffer[..i]));
    AfterAfter(Drain(buffer[i + 1..], next), events, sofar);
    assert events == [] ==> sofar + events == sofar;
  }

  lemma DrainEnd(buffer: string, current: Event)
    requires IndexOf(buffer, '\n') == None
    ensures forall events :: Drain(buffer, current).After(events) == Drained(events, buffer, current)
  {
    assert forall events: seq<Event> :: events + [] == events;
  }

  /** A line and its terminator are consumed as one step, whatever follows. */
  lemma LineStep(line: string, rest: string, current: Event)
    requires '\n' !in line
    ensures var (events, next) := ConsumeLine(current, StripCr(line));
            Drain(line + "\n" + rest, current) == Drain(rest, next).After(events)
  {
    hide ConsumeLine, StripCr;
    var text := line + "\n" + rest;
    assert text[..|line|] == line && text[|line| + 1..] == rest;
    IndexOfIs(text, '\n', |line|);
  }

  lemma BlankLine(rest: string, current: Event)
    ensures Drain("\n" + rest, current) == Drain(rest, NO_EVENT).After(Dispatch(current))
  {
    assert "\n" + rest == "" + "\n" + rest;
    LineStep("", rest, current);
  }

  lemma FlushDropsEverything(partial: string, current: Event)
    requires '\n' !in partial
    ensures Drain(partial + "\n\n", current).buffer == ""
    ensures partial != "" ==> Drain(partial + "\n\n", current).current == NO_EVENT
  {
    hide ConsumeLine;
    assert partial + "\n\n" == partial + "\n" + "\n";
    LineStep(partial, "\n", current);
    BlankLine("", ConsumeLine(current, StripCr(partial)).1);
  }

  // ----- independence of chunking

  /** Draining a concatenation is draining the first part and then the leftover with the second. */
  lemma {:induction false} DrainConcat(a: string, b: string, current: Event)
    ensures var d := Drain(a, current);
            Drain(a + b, current) == Drain(d.buffer + b, d.current).After(d.events)
    decreases |a|
  {
    hide Drain, ConsumeLine, StripCr;
    match IndexOf(a, '\n')
    case None =>
      DrainEnd(a, current);
      AfterNothing(Drain(a, current));
      AfterNothing(Drain(a + b, current));
    case Some(i) =>
      var line, tail := a[..i], a[i + 1..];
      var (events, next) := ConsumeLine(current, StripCr(line));
      assert Drain(a, current) == Drain(tail, next).After(events) by {
        assert a == line + "\n" + tail;
        LineStep(line, tail, current);
      }
      assert Drain(a + b, current) == Drain(tail + b, next).After(events) by {
        assert a + b == line + "\n" + (tail + b);
        LineStep(line, tail + b, current);
      }
      var d := Drain(tail, next);
      DrainConcat(tail, b, next);
      AfterAfter(Drain(d.buffer + b, d.current), d.events, events);
  }

  lemma {:induction false} DrainLeavesNoLine(text: string, current: Event)
    ensures '\n' !in Drain(text, current).buffer
    decreases |text|
  {
    match IndexOf(text, '\n')
    case None =>
    case Some(i) =>
      DrainLeavesNoLine(text[i + 1..], ConsumeLine(current, StripCr(text[..i])).1);
  }

  /** However the stream is cut, the events and the final parser are those of one push of the whole text. */
  lemma {:induction false} ChunkingIndependence(buffer: string, current: Event, chunks: seq<string>)
    requires '\n' !in buffer
    ensures PushAll(buffer, current, chunks) == Drain(buffer + Flatten(chunks), current)
    decreases |chunks|
  {
    if chunks == [] {
      assert buffer + Flatten(chunks) == buffer;
    } else {
      hide Drain;
      var text, rest := buffer + chunks[0], Flatten(chunks[1..]);
      var d := Drain(text, current);
      assert Drain(buffer + Flatten(chunks), current) == Drain(d.buffer + rest, d.current).After(d.events) by {
        assert text + rest == buffer + Flatten(chunks);
        DrainConcat(text, rest, current);
      }
      assert PushAll(d.buffer, d.current, chunks[1..]) == Drain(d.buffer + rest, d.current) by {
        DrainLeavesNoLine(text, current);
        ChunkingIndependence(d.buffer, d.current, chunks[1..]);
      }
    }
  }

  // ----- what one line does

  predicate EndsInCr(line: string) {
    line != "" && line[|line| - 1] == '\r'
  }

  /** A data line is added to the data already there as a further line. */
  function WithData(current: Event, v: string): Event {
    current.(data := Some(if current.data.Some? then current.data.value + "\n" + v else v))
  }

  lemma ColonLine(name: string, text: string, rest: string, current: Event)
    requires name != "" && ':' !in name && '\n' !in name && '\n' !in text && !EndsInCr(text)
    ensures var value := if text != "" && text[0] == ' ' then text[1..] else text;
            Drain(name + ":" + text + "\n" + rest, current) == Drain(rest, ApplyField(current, name, value))
  {
    hide Drain, ApplyField;
    var line := name + ":" + text;
    assert line[..|name|] == name && line[|name| + 1..] == text && line[0] == name[0];
    assert text != "" ==> line[|line| - 1] == text[|text| - 1];
    IndexOfIs(line, ':', |name|);
    LineStep(line, rest, current);
    AfterNothing(Drain(rest, ConsumeLine(current, line).1));
  }

  /** Without a space after the colon the value is all that follows it. */
  lemma FieldWithoutSpace(v: string, rest: string, current: Event)
    requires '\n' !in v && !EndsInCr(v) && (v != "" ==> v[0] != ' ')
    ensures Drain("event:" + v + "\n" + rest, current) == Drain(rest, current.(event := Some(v)))
    ensures Drain("data:" + v + "\n" + rest, current) == Drain(rest, WithData(current, v))
    ensures Drain("id:" + v + "\n" + rest, current) == Drain(rest, current.(id := Some(v)))
  {
    hide Drain;
    assert "event" + ":" == "event:" && "data" + ":" == "data:" && "id" + ":" == "id:";
    ColonLine("event", v, rest, current);
    ColonLine("data", v, rest, current);
    ColonLine("id", v, rest, current);
  }

  /** One space after the colon is dropped, and no more than one. */
  lemma FieldWithSpace(v: string, rest: string, current: Event)
    requires '\n' !in v && !EndsInCr(v)
    ensures Drain("event: " + v + "\n" + rest, current) == Drain(rest, current.(event := Some(v)))
    ensures Drain("data: " + v + "\n" + rest, current) == Drain(rest, WithData(current, v))
    ensures Drain("id: " + v + "\n" + rest, current) == Drain(rest, current.(id := Some(v)))
  {
    hide Drain;
    var text := " " + v;
    assert text[1..] == v;
    assert "event" + ":" + text == "event: " + v && "data" + ":" + text == "data: " + v && "id" + ":" + text == "id: " + v;
    ColonLine("event", text, rest, current);
    ColonLine("data", text, rest, current);
    ColonLine("id", text, rest, current);
  }

  lemma BareLine(name: string, rest: string, current: Event)
    requires name != "" && ':' !in name && '\n' !in name && !EndsInCr(name)
    ensures Drain(name + "\n" + rest, current) == Drain(rest, ApplyField(current, name, ""))
  {
    hide Drain, ApplyField;
    LineStep(name, rest, current);
    AfterNothing(Drain(rest, ConsumeLine(current, name).1));
  }

  /** A field line without a colon carries the empty value. */
  lemma FieldWithoutColon(rest: string, current: Event)
    ensures Drain("event\n" + rest, current) == Drain(rest, current.(event := Some("")))
    ensures Drain("data\n" + rest, current) == Drain(rest, WithData(current, ""))
    ensures Drain("id\n" + rest, current) == Drain(rest, current.(id := Some("")))
  {
    hide Drain;
    assert "event" + "\n" == "event\n" && "data" + "\n" == "data\n" && "id" + "\n" == "id\n";
    BareLine("event", rest, current);
    BareLine("data", rest, current);
    BareLine("id", rest, current);
  }

  /** Comments and unknown fields, with or without a colon, change nothing. */
  lemma OtherLinesAreIgnored(name: string, text: string, rest: string, current: Event)
    requires '\n' !in name && '\n' !in text && !EndsInCr(text)
    ensures Drain(":" + text + "\n" + rest, current) == Drain(rest, current)
    ensures name !in ["", "event", "data", "id"] && ':' !in name ==>
              Drain(name + ":" + text + "\n" + rest, current) == Drain(rest, current) &&
              (!EndsInCr(name) ==> Drain(name + "\n" + rest, current) == Drain(rest, current))
  {
    hide Drain;
    var comment := ":" + text;
    assert text != "" ==> comment[|comment| - 1] == text[|text| - 1];
    LineStep(comment, rest, current);
    AfterNothing(Drain(rest, current));
    if name !in ["", "event", "data", "id"] && ':' !in name {
      ColonLine(name, text, rest, current);
      if !EndsInCr(name) { BareLine(name, rest, current); }
    }
  }

  /** A carriage return before the newline belongs to the line end, and only one. */
  lemma CrLfEndsLine(line: string, rest: string, current: Event)
    requires '\n' !in line && !EndsInCr(line)
    ensures Drain(line + "\r\n" + rest, current) == Drain(line + "\n" + rest, current)
  {
    hide Drain, ConsumeLine;
    var ended := line + "\r";
    assert ended[..|line|] == line;
    assert ended + "\n" == line + "\r\n";
    LineStep(ended, rest, current);
    LineStep(line, rest, current);
  }

  /** A blank line dispatches the pending event, if any field of it is set, and starts the next one. */
  lemma BlankLineDispatches(rest: string, current: Event)
    ensures var next := Drain(rest, Event(None, None, None));
            Drain("\n" + rest, current) ==
            if current.event.None? && current.data.None? && current.id.None? then next
            else Drained([current] + next.events, next.buffer, next.current)
  {
    hide Drain;
    BlankLine(rest, current);
    AfterNothing(Drain(rest, NO_EVENT));
  }

  // ----- round trip through the wire format

  function SplitLines(s: string): (lines: seq<string>)
    ensures |lines| > 0 && forall l :: l in lines ==> '\n' !in l
    decreases |s|
  {
    match IndexOf(s, '\n')
    case None => [s]
    case Some(i) => [s[..i]] + SplitLines(s[i + 1..])
  }

  function StripEach(lines: seq<string>): (r: seq<string>)
    ensures |r| == |lines| && forall i :: 0 <= i < |r| ==> r[i] == StripCr(lines[i])
  {
    if lines == [] then [] else [StripCr(lines[0])] + StripEach(lines[1..])
  }

  function FieldText(name: string, value: Option<string>): string {
    match value
    case None => ""
    case Some(v) => name + ": " + v + "\n"
  }

  function DataText(lines: seq<string>): string {
    if lines == [] then "" else "data: " + lines[0] + "\n" + DataText(lines[1..])
  }

  /** The field lines of an event, without the blank line that dispatches it. */
  function Body(e: Event): string {
    FieldText("event", e.event) + (if e.data.Some? then DataText(SplitLines(e.data.value)) else "") +
    FieldText("id", e.id)
  }

  function Serialize(e: Event): string {
    Body(e) + "\n"
  }

  function SerializeAll(events: seq<Event>): string {
    if events == [] then "" else Serialize(events[0]) + SerializeAll(events[1..])
  }

  predicate OneLine(value: Option<string>) {
    value.Some? ==> '\n' !in value.value
  }

  /** Events the line format can carry at all. */
  predicate Framable(e: Event) {
    e != NO_EVENT && OneLine(e.event) && OneLine(e.id)
  }

  /** No field line of the event ends in a carriage return. */
  predicate CrFree(e: Event) {
    (e.event.Some? ==> !EndsInCr(e.event.value)) && (e.id.Some? ==> !EndsInCr(e.id.value)) &&
    (e.data.Some? ==> forall l :: l in SplitLines(e.data.value) ==> !EndsInCr(l))
  }

  function StripOption(value: Option<string>): Option<string> {
    if value.Some? then Some(StripCr(value.value)) else None
  }

  /** What the wire makes of an event: each field line loses one trailing carriage return. */
  function Normalize(e: Event): Event {
    Event(StripOption(e.event),
          if e.data.Some? then Some(JoinLines(StripEach(SplitLines(e.data.value)))) else None,
          StripOption(e.id))
  }

  function NormalizeAll(events: seq<Event>): (r: seq<Event>)
    ensures |r| == |events| && forall i :: 0 <= i < |r| ==> r[i] == Normalize(events[i])
  {
    if events == [] then [] else [Normalize(events[0])] + NormalizeAll(events[1..])
  }

  lemma ConsumeField(name: string, v: string, current: Event)
    requires name != "" && ':' !in name
    ensures ConsumeLine(current, StripCr(name + ": " + v)) == ([], ApplyField(current, name, StripCr(v)))
  {
    var stripped := name + ": " + StripCr(v);
    assert StripCr(name + ": " + v) == stripped;
    assert stripped[..|name|] == name && stripped[|name| + 1..] == " " + StripCr(v);
    assert stripped[0] == name[0];
    IndexOfIs(stripped, ':', |name|);
    assert StripSpace(" " + StripCr(v)) == StripCr(v);
  }

  lemma FieldLine(name: string, v: string, rest: string, current: Event)
    requires name != "" && ':' !in name && '\n' !in name && '\n' !in v
    ensures Drain(name + ": " + v + "\n" + rest, current) == Drain(rest, ApplyField(current, name, StripCr(v)))
  {
    LineStep(name + ": " + v, rest, current);
    ConsumeField(name, v, current);
    AfterNothing(Drain(rest, ApplyField(current, name, StripCr(v))));
  }

  lemma OptionalField(name: string, value: Option<string>, rest: string, current: Event)
    requires name in ["event", "id"] && OneLine(value)
    ensures Drain(FieldText(name, value) + rest, current)
         == Drain(rest, if value.Some? then ApplyField(current, name, StripCr(value.value)) else current)
  {
    match value
    case None => assert "" + rest == rest;
    case Some(v) => FieldLine(name, v, rest, current);
  }

  /** Appending two data lines one after the other appends them joined. */
  lemma ApplyTwice(current: Event, first: string, more: string)
    ensures ApplyField(ApplyField(current, "data", first), "data", more)
         == ApplyField(current, "data", first + "\n" + more)
  {
    if current.data.Some? {
      assert current.data.value + "\n" + first + "\n" + more == current.data.value + "\n" + (first + "\n" + more);
    }
  }

  lemma {:induction false} DataLines(lines: seq<string>, rest: string, current: Event)
    requires lines != [] && forall l :: l in lines ==> '\n' !in l
    ensures var joined := JoinLines(StripEach(lines));
            Drain(DataText(lines) + rest, current) == Drain(rest, ApplyField(current, "data", joined))
    decreases |lines|
  {
    hide Drain, ApplyField, StripCr;
    var tail := DataText(lines[1..]) + rest;
    assert DataText(lines) + rest == "data: " + lines[0] + "\n" + tail;
    assert "data" + ": " == "data: ";
    FieldLine("data", lines[0], tail, current);
    assert StripEach(lines)[1..] == StripEach(lines[1..]);
    if |lines| == 1 {
      assert tail == rest;
    } else {
      DataLines(lines[1..], rest, ApplyField(current, "data", StripCr(lines[0])));
      ApplyTwice(current, StripCr(lines[0]), JoinLines(StripEach(lines[1..])));
    }
  }

  lemma BodyBuilds(e: Event, rest: string)
    requires Framable(e)
    ensures Drain(Body(e) + rest, NO_EVENT) == Drain(rest, Normalize(e))
  {
    hide Drain, DataText, FieldText, StripCr, JoinLines, StripEach;
    var afterData := FieldText("id", e.id) + rest;
    var dataText := if e.data.Some? then DataText(SplitLines(e.data.value)) else "";
    assert Body(e) + rest == FieldText("event", e.event) + (dataText + afterData);
    OptionalField("event", e.event, dataText + afterData, NO_EVENT);
    var c1 := Event(StripOption(e.event), None, None);
    var c2 := c1.(data := Normalize(e).data);
    if e.data.Some? {
      DataLines(SplitLines(e.data.value), afterData, c1);
    } else {
      assert dataText + afterData == afterData;
    }
    OptionalField("id", e.id, rest, c2);
  }

  lemma SerializedEvent(e: Event, rest: string)
    requires Framable(e)
    ensures Drain(Serialize(e) + rest, NO_EVENT) == Drain(rest, NO_EVENT).After([Normalize(e)])
  {
    hide Drain, Body;
    assert Serialize(e) + rest == Body(e) + ("\n" + rest);
    BodyBuilds(e, "\n" + rest);
    BlankLine(rest, Normalize(e));
  }

  /** A stream that ends inside a non-blank line loses that line and the event it belongs to. */
  lemma CutLineIsLost(text: string, line: string, current: Event)
    requires '\n' !in line && !AllWhitespace(line)
    ensures var d := Drain(text + line, current);
            Recovered(d.buffer, d.current) == None && d.events == Drain(text, current).events
  {
    hide Drain, ConsumeLine;
    var d := Drain(text, current);
    DrainConcat(text, line, current);
    DrainLeavesNoLine(text, current);
    DrainEnd(d.buffer + line, d.current);
    StaysVisible(d.buffer, line);
    assert d.events + [] == d.events;
  }

  lemma StaysVisible(buffer: string, line: string)
    requires !AllWhitespace(line)
    ensures !AllWhitespace(buffer + line)
  {
    var i :| 0 <= i < |line| && !IsWhitespace(line[i]);
    assert (buffer + line)[|buffer| + i] == line[i];
  }

  /** Any list of framable events comes back, each field line shorn of one trailing carriage return. */
  lemma {:induction false} SerializedEvents(events: seq<Event>)
    requires forall e :: e in events ==> Framable(e)
    ensures Drain(SerializeAll(events), NO_EVENT) == Drained(NormalizeAll(events), "", NO_EVENT)
  {
    if events == [] {
    } else {
      SerializedEvent(events[0], SerializeAll(events[1..]));
      SerializedEvents(events[1..]);
    }
  }

  /** After any events, a last one whose blank line never arrives is recovered at the end of the stream. */
  lemma MissingBlankLineIsForgiven(events: seq<Event>, e: Event)
    requires Framable(e) && forall f :: f in events ==> Framable(f)
    ensures var d := Drain(SerializeAll(events) + Body(e), NO_EVENT);
            d.events == NormalizeAll(events) && Recovered(d.buffer, d.current) == Some(Normalize(e))
  {
    hide Drain, Body, Normalize, SerializeAll;
    SerializedEvents(events);
    DrainConcat(SerializeAll(events), Body(e), NO_EVENT);
    BodyAlone(e);
    assert "" + Body(e) == Body(e);
    assert NormalizeAll(events) + [] == NormalizeAll(events);
  }

  lemma BodyAlone(e: Event)
    requires Framable(e)
    ensures var d := Drain(Body(e), NO_EVENT);
            d.events == [] && Recovered(d.buffer, d.current) == Some(Normalize(e))
  {
    BodyBuilds(e, "");
    assert Body(e) + "" == Body(e);
  }

  lemma LineKeepsFramable(current: Event, line: string)
    requires '\n' !in line && OneLine(current.event) && OneLine(current.id)
    ensures var (events, next) := ConsumeLine(current, line);
            OneLine(next.event) && OneLine(next.id) && forall e :: e in events ==> Framable(e)
  {
    hide ApplyField;
    if line != "" && line[0] != ':' {
      match IndexOf(line, ':')
      case Some(i) =>
        var value := StripSpace(line[i + 1..]);
        assert forall k :: 0 <= k < |value| ==> value[k] in line;
        FieldKeepsOneLine(current, line[..i], value);
      case None => FieldKeepsOneLine(current, line, "");
    }
  }

  lemma FieldKeepsOneLine(current: Event, field: string, value: string)
    requires '\n' !in value && OneLine(current.event) && OneLine(current.id)
    ensures var next := ApplyField(current, field, value);
            OneLine(next.event) && OneLine(next.id)
  {
  }

  /** Every event the parser returns is framable, for any input at all. */
  lemma {:induction false} ReturnsOnlyFramable(text: string, current: Event)
    requires OneLine(current.event) && OneLine(current.id)
    ensures forall e :: e in Drain(text, current).events ==> Framable(e)
    decreases |text|
  {
    match IndexOf(text, '\n')
    case None =>
    case Some(i) =>
      LineKeepsFramable(current, StripCr(text[..i]));
      hide ConsumeLine;
      ReturnsOnlyFramable(text[i + 1..], ConsumeLine(current, StripCr(text[..i])).1);
  }

  lemma {:induction false} SplitJoin(lines: seq<string>)
    requires lines != [] && forall l :: l in lines ==> '\n' !in l
    ensures SplitLines(JoinLines(lines)) == lines
  {
    var s := JoinLines(lines);
    assert lines[0] in lines;
    if |lines| > 1 {
      SplitJoin(lines[1..]);
      assert s[..|lines[0]|] == lines[0] && s[|lines[0]| + 1..] == JoinLines(lines[1..]);
      IndexOfIs(s, '\n', |lines[0]|);
    }
  }

  lemma {:induction false} JoinSplit(s: string)
    ensures JoinLines(SplitLines(s)) == s
    decreases |s|
  {
    match IndexOf(s, '\n')
    case None =>
    case Some(i) => 
      JoinSplit(s[i + 1..]);
      assert SplitLines(s)[1..] == SplitLines(s[i + 1..]);
      assert s == s[..i] + "\n" + s[i + 1..];
  }

  lemma NormalizeFixesExactlyCrFree(e: Event)
    ensures Normalize(e) == e <==> CrFree(e)
  {
    if e.data.Some? {
      var lines := SplitLines(e.data.value);
      var stripped := StripEach(lines);
      JoinSplit(e.data.value);
      assert forall l :: l in stripped ==> '\n' !in l by {
        forall i | 0 <= i < |lines| ensures '\n' !in StripCr(lines[i]) {
          assert lines[i] in lines;
        }
      }
      SplitJoin(stripped);
      if CrFree(e) {
        forall i | 0 <= i < |lines| ensures stripped[i] == lines[i] { assert lines[i] in lines; }
        assert stripped == lines;
      }
      if Normalize(e) == e {
        assert stripped == lines;
        forall l | l in lines ensures !EndsInCr(l) {
          var i :| 0 <= i < |lines| && lines[i] == l;
          assert stripped[i] == lines[i];
        }
      }
    }
  }

  /** The wire format loses nothing exactly when every event is framable and free of line-final carriage returns;
      the chunks in which the bytes arrive do not matter. */
  lemma RoundTrip(events: seq<Event>, chunks: seq<string>)
    requires Flatten(chunks) == SerializeAll(events)
    ensures PushAll("", NO_EVENT, chunks).events == events
       <==> forall e :: e in events ==> Framable(e) && CrFree(e)
    ensures (forall e :: e in events ==> Framable(e)) ==>
              PushAll("", NO_EVENT, chunks) == Drained(NormalizeAll(events), "", NO_EVENT)
  {
    ChunkingIndependence("", NO_EVENT, chunks);
    assert "" + Flatten(chunks) == SerializeAll(events);
    ReturnsOnlyFramable(SerializeAll(events), NO_EVENT);
    forall e ensures Normalize(e) == e <==> CrFree(e) { NormalizeFixesExactlyCrFree(e); }
    if forall e :: e in events ==> Framable(e) {
      SerializedEvents(events);
      if NormalizeAll(events) == events {
        forall e | e in events ensures CrFree(e) {
          var i :| 0 <= i < |events| && events[i] == e;
          assert NormalizeAll(events)[i] == e;
        }
      }
      if forall e :: e in events ==> CrFree(e) {
        forall i | 0 <= i < |events| ensures NormalizeAll(events)[i] == events[i] { assert events[i] in events; }
        assert NormalizeAll(events) == events;
      }
    }
  }
}
