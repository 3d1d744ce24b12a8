/** The event journal `events.jsonl`: one line of JSON per event, appended and read back. */
module Journal {
  import opened Wrappers
  import opened Json
  import opened Models

  /** The line a read stopped at, counted from 1, and why. */
  datatype CorruptLine = CorruptLine(number: nat, refusal: Refusal)

  type Reading = Result<seq<Event>, CorruptLine>

  // -- writing --------------------------------------------------------------

  /** What `append_event` adds to the file. */
  function Line(e: Event): string {
    Dumps(DumpEvent(e)) + "\n"
  }

  /** The file after the events have been appended to an empty one. */
  function JournalText(events: seq<Event>): string {
    if events == [] then "" else Line(events[0]) + JournalText(events[1..])
  }

  /** One append, of which so many characters got to the file before the process died; all of them if it did not. */
  datatype CutAppend = CutAppend(event: Event, written: nat)
  {
    function Cut(): string {
      if written <= |Line(event)| then Line(event)[..written] else Line(event)
    }
  }

  /** The file after the appends, cut short or not. */
  function Appended(appends: seq<CutAppend>): string {
    if appends == [] then "" else appends[0].Cut() + Appended(appends[1..])
  }

  /** Appends of which everything got to the file. */
  function Entire(events: seq<Event>): (r: seq<CutAppend>)
    ensures |r| == |events|
    ensures forall k :: 0 <= k < |r| ==> r[k] == CutAppend(events[k], |Line(events[k])|)
  {
    if events == [] then [] else [CutAppend(events[0], |Line(events[0])|)] + Entire(events[1..])
  }

  // -- reading --------------------------------------------------------------

  /** The characters `str.splitlines` breaks at. */
  predicate IsBreak(c: char) {
    c in {'\n', '\r', '\U{0B}', '\U{0C}', '\U{1C}', '\U{1D}', '\U{1E}', '\U{85}', '\U{2028}', '\U{2029}'}
  }

  function LineLength(text: string): (n: nat)
    ensures n <= |text|
    ensures n < |text| ==> IsBreak(text[n])
    ensures forall k :: 0 <= k < n ==> !IsBreak(text[k])
  {
    if text == "" || IsBreak(text[0]) then 0 else 1 + LineLength(text[1..])
  }

  /** `str.splitlines`: a carriage return and a line feed make one break, and a final break ends the last line. */
  function SplitLines(text: string): seq<string>
    decreases |text|
  {
    if text == "" then []
    else
      var n := LineLength(text);
      if n == |text| then [text]
      else
        var next := if text[n] == '\r' && n + 1 < |text| && text[n + 1] == '\n' then n + 2 else n + 1;
        [text[..n]] + SplitLines(text[next..])
  }

  /** The line boundaries `str.splitlines` is documented to split at, by code point. */
  predicate IsBoundary(b: string) {
    b == "\r\n"
    || (|b| == 1 && b[0] as int in {0x0A, 0x0B, 0x0C, 0x0D, 0x1C, 0x1D, 0x1E, 0x85, 0x2028, 0x2029})
  }

  /** A line of text: no character of it is a boundary. */
  ghost predicate IsLine(line: string) { forall k | 0 <= k < |line| :: !IsBoundary([line[k]]) }

  /** The lines are those of the text: each ends at a boundary, a carriage return never without the line feed that
      follows it, and only the last may end with the text instead, and is then not empty. */
  ghost predicate AreLines(text: string, lines: seq<string>)
    decreases |lines|
  {
    if lines == [] then text == ""
    else
      && IsLine(lines[0])
      && (|| (|lines| == 1 && lines[0] != "" && text == lines[0])
          || exists b: string, rest: string ::
               && IsBoundary(b) && text == lines[0] + b + rest && AreLines(rest, lines[1..])
               && !(b == "\r" && rest != "" && rest[0] == '\n'))
  }

  lemma BreakIsBoundary(c: char)
    ensures IsBreak(c) <==> IsBoundary([c])
  {
  }

  /** `str.splitlines` gives exactly the lines. */
  lemma SplitLinesExactly(text: string, lines: seq<string>)
    ensures AreLines(text, lines) <==> lines == SplitLines(text)
  {
    SplitAreLines(text);
    if AreLines(text, lines) { LinesAreSplit(text, lines); }
  }

  lemma FirstLineIs(text: string)
    ensures IsLine(text[..LineLength(text)])
    ensures LineLength(text) < |text| ==> IsBoundary([text[LineLength(text)]])
  {
    hide IsBoundary;
    forall k | 0 <= k < LineLength(text) ensures !IsBoundary([text[k]]) { BreakIsBoundary(text[k]); }
    if LineLength(text) < |text| { BreakIsBoundary(text[LineLength(text)]); }
  }

  lemma {:induction false} SplitAreLines(text: string)
    ensures AreLines(text, SplitLines(text))
    decreases |text|
  {
    hide IsLine, IsBoundary, AreLines, SplitLines, IsBreak;
    if text == "" {
      NoLine();
    } else {
      var n := LineLength(text);
      FirstLineIs(text);
      if n == |text| {
        assert text[..n] == text;
        OneLine(text);
        LastLine(text);
      } else {
        var twice := text[n] == '\r' && n + 1 < |text| && text[n + 1] == '\n';
        var b, rest := if twice then "\r\n" else [text[n]], text[if twice then n + 2 else n + 1..];
        CarriageReturn();
        assert text == text[..n] + b + rest;
        SplitAreLines(rest);
        SplitStep(text, text[..n], b, rest);
        LinesThen(text, text[..n], b, rest, SplitLines(rest));
      }
    }
  }

  lemma CarriageReturn()
    ensures IsBoundary("\r\n") && IsBoundary("\r")
  {
  }

  lemma NoLine()
    ensures AreLines("", []) && SplitLines("") == []
  {
  }

  lemma LastLine(text: string)
    requires IsLine(text) && text != ""
    ensures AreLines(text, [text])
  {
    hide IsLine;
  }

  lemma LinesThen(text: string, line: string, b: string, rest: string, lines: seq<string>)
    requires IsLine(line) && IsBoundary(b) && text == line + b + rest && AreLines(rest, lines)
    requires !(b == "\r" && rest != "" && rest[0] == '\n')
    ensures AreLines(text, [line] + lines)
  {
    hide IsLine, IsBoundary;
    assert ([line] + lines)[1..] == lines;
  }

  lemma LineEndsThere(line: string, t: string)
    requires IsLine(line) && (t != "" ==> IsBoundary([t[0]]))
    ensures LineLength(line + t) == |line|
  {
    hide IsBoundary;
    forall k | 0 <= k < |line| ensures !IsBreak((line + t)[k]) { BreakIsBoundary(line[k]); }
    if t != "" { BreakIsBoundary((line + t)[|line|]); }
  }

  lemma SplitStep(text: string, line: string, b: string, rest: string)
    requires IsLine(line) && IsBoundary(b) && text == line + b + rest
    requires !(b == "\r" && rest != "" && rest[0] == '\n')
    ensures SplitLines(text) == [line] + SplitLines(rest)
  {
    hide IsLine;
    assert text == line + (b + rest) && (b + rest)[0] == b[0];
    LineEndsThere(line, b + rest);
    assert text[..|line|] == line && text[|line| + |b|..] == rest && text[|line|] == b[0];
    if |b| == 2 { assert text[|line| + 1] == '\n'; }
    if |b| == 1 && rest != "" { assert text[|line| + 1] == rest[0]; }
  }

  lemma {:induction false} LinesAreSplit(text: string, lines: seq<string>)
    requires AreLines(text, lines)
    ensures lines == SplitLines(text)
    decreases |lines|
  {
    hide IsLine, SplitLines, IsBoundary;
    if lines == [] {
      NoLine();
    } else {
      var line := lines[0];
      if |lines| == 1 && line != "" && text == line {
        OneLine(line);
      } else {
        var b: string, rest: string :|
          && IsBoundary(b) && text == line + b + rest && AreLines(rest, lines[1..])
          && !(b == "\r" && rest != "" && rest[0] == '\n');
        hide AreLines;
        LinesAreSplit(rest, lines[1..]);
        SplitStep(text, line, b, rest);
        assert lines == [line] + lines[1..];
      }
    }
  }

  lemma OneLine(line: string)
    requires IsLine(line) && line != ""
    ensures SplitLines(line) == [line]
  {
    hide IsLine;
    LineEndsThere(line, "");
    assert line + "" == line;
  }

  /** The characters `str.strip` removes. */
  predicate IsWhite(c: char) {
    || '\t' <= c <= '\r' || '\U{1C}' <= c <= ' ' || c == '\U{85}' || c == '\U{A0}' || c == '\U{1680}'
    || '\U{2000}' <= c <= '\U{200A}' || c in {'\U{2028}', '\U{2029}', '\U{202F}', '\U{205F}', '\U{3000}'}
  }

  /** The code points of the class White_Space and the four separators U+001C to U+001F. */
  lemma WhiteExactly(c: char)
    ensures IsWhite(c) <==>
      || c as int in {0x09, 0x0A, 0x0B, 0x0C, 0x0D, 0x1C, 0x1D, 0x1E, 0x1F, 0x20, 0x85, 0xA0, 0x1680}
      || c as int in {0x2000, 0x2001, 0x2002, 0x2003, 0x2004, 0x2005, 0x2006, 0x2007, 0x2008, 0x2009, 0x200A}
      || c as int in {0x2028, 0x2029, 0x202F, 0x205F, 0x3000}
  {
  }

  predicate IsBlank(line: string) {
    forall k | 0 <= k < |line| :: IsWhite(line[k])
  }

  /** What the lines hold from line `number` on: blank lines skipped, the first corrupt line refused. */
  function EventsOf(lines: seq<string>, number: nat): Reading {
    if lines == [] then Ok([])
    else if IsBlank(lines[0]) then EventsOf(lines[1..], number + 1)
    else match ParseEvent(lines[0])
      case Err(e) => Err(CorruptLine(number, e))
      case Ok(event) => Prepend([event], EventsOf(lines[1..], number + 1))
  }

  function Prepend(events: seq<Event>, reading: Reading): Reading {
    if reading.Ok? then Ok(events + reading.value) else reading
  }

  function ReadJournal(text: string): Reading {
    EventsOf(SplitLines(text), 1)
  }

  lemma PrependNothing(r: Reading)
    ensures Prepend([], r) == r
  {
    if r.Ok? { assert [] + r.value == r.value; }
  }

  lemma PrependPrepend(a: seq<Event>, b: seq<Event>, r: Reading)
    ensures Prepend(a, Prepend(b, r)) == Prepend(a + b, r)
  {
    if r.Ok? { assert a + (b + r.value) == a + b + r.value; }
  }

  /** The loop of `read_events`. */
  method ReadEvents(text: string) returns (r: Reading)
    ensures r == ReadJournal(text)
  {
    var events: seq<Event> := [];
    var lines := SplitLines(text);
    assert lines[0..] == lines;
    PrependNothing(EventsOf(lines, 1));
    for i := 0 to |lines|
      invariant EventsOf(lines, 1) == Prepend(events, EventsOf(lines[i..], i + 1))
    {
      assert lines[i..][1..] == lines[i + 1..];
      if !IsBlank(lines[i]) {
        match ParseEvent(lines[i])
        case Err(e) => return Err(CorruptLine(i + 1, e));
        case Ok(event) =>
          PrependPrepend(events, [event], EventsOf(lines[i + 1..], i + 2));
          events := events + [event];
      }
    }
    assert lines[|lines|..] == [] && events + [] == events;
    return Ok(events);
  }
}

/** Reading a journal returns the events appended to it, in order, and a torn line is never misread. */
module JournalProperties {
  import opened Wrappers
  import opened Ordering
  import opened Json
  import opened JsonProperties
  import opened JsonNesting
  import opened Models
  import opened ModelProperties
  import opened Journal

  ghost predicate AllValid(events: seq<Event>) {
    forall k :: 0 <= k < |events| ==> events[k].Valid()
  }

  ghost predicate AllCurrent(events: seq<Event>) {
    forall k :: 0 <= k < |events| ==> events[k].schemaVersion == CURRENT_SCHEMA_VERSION
  }

  /** A line without its line feed is printable, so `splitlines` never cuts inside it and it is not blank. */
  lemma LineIsOneLine(e: Event)
    requires e.Valid()
    ensures var line := Dumps(DumpEvent(e)); line != "" && line[0] == '{' && Printable(line)
  {
    hide Text, DumpEvent;
    DumpedEventIsWellFormed(e);
    CompactIsPrintable(DumpEvent(e), 0);
    TextHead(DumpEvent(e), Compact, 0);
    assert DumpEvent(e).Obj? by { EventDumpsObject(e); }
  }

  lemma EventDumpsObject(e: Event)
    ensures DumpEvent(e).Obj?
  {
  }

  lemma PrintableHasNoBreak(line: string, t: string)
    requires Printable(line) && (t != "" ==> IsBreak(t[0]))
    ensures LineLength(line + t) == |line|
  {
    forall k | 0 <= k < |line| ensures !IsBreak((line + t)[k]) { assert line[k] in line; }
    assert t != "" ==> (line + t)[|line|] == t[0];
  }

  lemma SplitAfterLine(line: string, t: string)
    requires Printable(line)
    ensures SplitLines(line + "\n" + t) == [line] + SplitLines(t)
  {
    PrintableHasNoBreak(line, "\n" + t);
    assert line + ("\n" + t) == line + "\n" + t;
    assert (line + "\n" + t)[..|line|] == line && (line + "\n" + t)[|line| + 1..] == t;
  }

  lemma SplitLastLine(line: string)
    requires Printable(line) && line != ""
    ensures SplitLines(line) == [line]
  {
    PrintableHasNoBreak(line, "");
    assert line + "" == line;
  }

  /** Whatever follows the appended events in the file, the events are read first and in order. */
  lemma {:induction false} EventsThen(events: seq<Event>, t: string, number: nat)
    requires AllValid(events) && AllCurrent(events)
    ensures EventsOf(SplitLines(JournalText(events) + t), number)
         == Prepend(events, EventsOf(SplitLines(t), number + |events|))
  {
    hide SplitLines, ParseEvent, DumpEvent, IsBlank, Dumps, EventsOf, Prepend;
    if events == [] {
      assert JournalText(events) + t == t;
      PrependNothing(EventsOf(SplitLines(t), number));
    } else {
      var e, rest := events[0], JournalText(events[1..]) + t;
      assert JournalText(events) + t == Dumps(DumpEvent(e)) + "\n" + rest;
      LineIsOneLine(e);
      SplitAfterLine(Dumps(DumpEvent(e)), rest);
      FirstLine(e, SplitLines(rest), number);
      EventsThen(events[1..], t, number + 1);
      PrependPrepend([e], events[1..], EventsOf(SplitLines(t), number + |events|));
      assert [e] + events[1..] == events;
    }
  }

  lemma NotBlank(line: string)
    requires line != "" && line[0] == '{'
    ensures !IsBlank(line)
  {
    assert !IsWhite(line[0]);
  }

  lemma FirstLine(e: Event, lines: seq<string>, number: nat)
    requires e.Valid()
    ensures EventsOf([Dumps(DumpEvent(e))] + lines, number) ==
      if e.schemaVersion == CURRENT_SCHEMA_VERSION then Prepend([e], EventsOf(lines, number + 1))
      else Err(CorruptLine(number, BadVersion))
  {
    hide ParseEvent, DumpEvent, IsBlank, Text;
    LineIsOneLine(e);
    NotBlank(Dumps(DumpEvent(e)));
    EventRoundTrip(e);
    assert ([Dumps(DumpEvent(e))] + lines)[1..] == lines;
  }

  /** After any sequence of appends, reading returns exactly those events in append order. */
  lemma JournalRoundTrip(events: seq<Event>)
    requires AllValid(events) && AllCurrent(events)
    ensures ReadJournal(JournalText(events)) == Ok(events)
  {
    hide SplitLines, ParseEvent;
    EventsThen(events, "", 1);
    assert JournalText(events) + "" == JournalText(events);
    assert SplitLines("") == [] by { EmptyHasNoLines(); }
    assert events + [] == events;
  }

  lemma EmptyHasNoLines()
    ensures SplitLines("") == []
  {
  }

  /** The first event of another schema version makes the whole journal unreadable, at that event's line. */
  lemma StaleEventBlocks(before: seq<Event>, stale: Event, after: seq<Event>)
    requires AllValid(before) && AllCurrent(before)
    requires stale.Valid() && stale.schemaVersion != CURRENT_SCHEMA_VERSION
    ensures ReadJournal(JournalText(before + [stale] + after)) == Err(CorruptLine(|before| + 1, BadVersion))
  {
    hide SplitLines, ParseEvent, DumpEvent;
    JournalTextConcat(before, [stale] + after);
    assert before + [stale] + after == before + ([stale] + after);
    EventsThen(before, JournalText([stale] + after), 1);
    assert ([stale] + after)[1..] == after;
    LineIsOneLine(stale);
    SplitAfterLine(Dumps(DumpEvent(stale)), JournalText(after));
    FirstLine(stale, SplitLines(JournalText(after)), 1 + |before|);
  }

  lemma {:induction false} JournalTextConcat(a: seq<Event>, b: seq<Event>)
    ensures JournalText(a + b) == JournalText(a) + JournalText(b)
  {
    hide Line;
    if a == [] {
      assert a + b == b;
    } else {
      assert (a + b)[1..] == a[1..] + b;
      JournalTextConcat(a[1..], b);
    }
  }

  /** The whole journal reads back exactly when every event has the current schema version; otherwise the first
      that has not is refused. */
  lemma ReadableWhenCurrent(events: seq<Event>)
    requires AllValid(events)
    ensures ReadJournal(JournalText(events)) ==
      if AllCurrent(events) then Ok(events) else Err(CorruptLine(FirstStale(events) + 1, BadVersion))
  {
    hide ReadJournal, JournalText;
    if AllCurrent(events) {
      JournalRoundTrip(events);
    } else {
      var k := FirstStale(events);
      StaleEventBlocks(events[..k], events[k], events[k + 1..]);
      assert events[..k] + [events[k]] + events[k + 1..] == events;
    }
  }

  ghost function FirstStale(events: seq<Event>): (k: nat)
    requires !AllCurrent(events)
    ensures k < |events| && AllCurrent(events[..k]) && events[k].schemaVersion != CURRENT_SCHEMA_VERSION
  {
    if events[0].schemaVersion != CURRENT_SCHEMA_VERSION then 0
    else
      assert !AllCurrent(events[1..]);
      1 + FirstStale(events[1..])
  }

  lemma TornLineIsNotJson(e: Event, cut: nat)
    requires e.Valid() && cut < |Dumps(DumpEvent(e))|
    ensures Loads(Dumps(DumpEvent(e))[..cut]) == None
  {
    hide Text, DumpEvent, Loads;
    var line := Dumps(DumpEvent(e));
    DumpedEventIsWellFormed(e);
    LoadsInvertsDumps(DumpEvent(e), Compact);
    EventDumpsObject(e);
    LineEndsInBrace(e);
    ObjectTextIsPrefixFree(line, cut);
  }

  lemma LineEndsInBrace(e: Event)
    ensures var line := Dumps(DumpEvent(e)); line != "" && line[|line| - 1] == '}'
  {
    hide MembersText, Quoted;
  }

  /** What a read makes of the line a crashed append was writing. */
  ghost function TornReading(e: Event, written: nat, number: nat): Reading
  {
    if written == 0 then Ok([])
    else if written < |Line(e)| - 1 then Err(CorruptLine(number, InvalidJson))
    else if e.schemaVersion == CURRENT_SCHEMA_VERSION then Ok([e])
    else Err(CorruptLine(number, BadVersion))
  }

  lemma TornLineReads(e: Event, written: nat, number: nat)
    requires e.Valid() && written <= |Line(e)|
    ensures EventsOf(SplitLines(Line(e)[..written]), number) == TornReading(e, written, number)
  {
    hide SplitLines, ParseEvent, DumpEvent, EventsOf, Dumps;
    var line, torn := Dumps(DumpEvent(e)), Line(e)[..written];
    LineIsOneLine(e);
    EmptyHasNoLines();
    NothingLeft();
    if 0 < written < |line| {
      assert torn == line[..written];
      TornLineIsNotJson(e, written);
      assert forall c :: c in torn ==> c in line;
      SplitLastLine(torn);
      RefusedFirstLine(torn, [], number);
      assert [torn] + [] == [torn];
    } else if written != 0 {
      FirstLine(e, [], number);
      assert [line] + [] == [line];
      if written == |line| {
        assert torn == line;
        SplitLastLine(line);
      } else {
        assert torn == line + "\n" + "";
        SplitAfterLine(line, "");
      }
      assert [e] + [] == [e];
    }
  }

  /** A crash in the middle of an append leaves some prefix of the new line. A read then returns the events
      before it, or those and the whole new event, or refuses exactly that line; it never invents an event. */
  lemma TornAppendIsNeverMisread(events: seq<Event>, e: Event, written: nat)
    requires AllValid(events) && AllCurrent(events) && e.Valid() && written <= |Line(e)|
    ensures ReadJournal(JournalText(events) + Line(e)[..written]) ==
      if written == 0 then Ok(events)
      else if written < |Line(e)| - 1 then Err(CorruptLine(|events| + 1, InvalidJson))
      else if e.schemaVersion == CURRENT_SCHEMA_VERSION then Ok(events + [e])
      else Err(CorruptLine(|events| + 1, BadVersion))
  {
    hide SplitLines, EventsOf, Line, JournalText;
    EventsThen(events, Line(e)[..written], 1);
    TornLineReads(e, written, |events| + 1);
    assert events + [] == events;
  }

  lemma NothingLeft()
    ensures forall number: nat :: EventsOf([], number) == Ok([])
  {
  }

  // -- any number of torn appends -------------------------------------------

  ghost predicate Possible(a: CutAppend) {
    a.event.Valid() && a.written <= |Line(a.event)|
  }

  ghost predicate AllPossible(appends: seq<CutAppend>) {
    forall k :: 0 <= k < |appends| ==> Possible(appends[k])
  }

  ghost predicate NothingWritten(appends: seq<CutAppend>) {
    forall k :: 0 <= k < |appends| ==> appends[k].written == 0
  }

  /** What a read must make of it: the complete lines, and of a torn one only what can be told for sure. */
  ghost function AppendReading(appends: seq<CutAppend>, number: nat): Reading
    requires AllPossible(appends)
  {
    if appends == [] then Ok([])
    else
      var CutAppend(e, written) := appends[0];
      if written == 0 then AppendReading(appends[1..], number)
      else if written == |Line(e)| then
        if e.schemaVersion == CURRENT_SCHEMA_VERSION then Prepend([e], AppendReading(appends[1..], number + 1))
        else Err(CorruptLine(number, BadVersion))
      else if NothingWritten(appends[1..]) then TornReading(e, written, number)
      else Err(CorruptLine(number, InvalidJson))
  }

  /** The events whose whole JSON text got to the file, in order. */
  ghost function EventsWritten(appends: seq<CutAppend>): seq<Event> {
    if appends == [] then []
    else
      var CutAppend(e, written) := appends[0];
      (if written + 1 >= |Line(e)| then [e] else []) + EventsWritten(appends[1..])
  }

  /** The first line of the journal. */
  ghost function Head(appends: seq<CutAppend>): string
    requires AllPossible(appends)
  {
    if appends == [] then ""
    else if appends[0].written == |Line(appends[0].event)| then Dumps(DumpEvent(appends[0].event))
    else appends[0].Cut() + Head(appends[1..])
  }

  /** What follows the first line is the rest of the appends, from the `k`th on. */
  lemma {:induction false} HeadIsFirstLine(appends: seq<CutAppend>) returns (rest: string, k: nat)
    requires AllPossible(appends)
    ensures Appended(appends) == Head(appends) + rest
    ensures k <= |appends| && (rest == "" || rest == "\n" + Appended(appends[k..]))
    ensures Printable(Head(appends))
    ensures if NothingWritten(appends) then Appended(appends) == "" else Head(appends) != "" && Head(appends)[0] == '{'
  {
    hide Line, Printable, NothingWritten;
    if appends == [] {
      rest, k := "", 0;
      NothingPrintable();
    } else {
      var a, more := appends[0], appends[1..];
      CutFacts(a);
      FirstAndRest(appends);
      if a.written == |Line(a.event)| {
        rest, k := "\n" + Appended(more), 1;
        Regrouped(Dumps(DumpEvent(a.event)), "\n", Appended(more));
      } else {
        var j;
        rest, j := HeadIsFirstLine(more);
        k := j + 1;
        assert more[j..] == appends[k..];
        PrintableConcat(a.Cut(), Head(more));
        Regrouped(a.Cut(), Head(more), rest);
      }
    }
  }

  lemma NothingPrintable()
    ensures Printable("") && NothingWritten([])
  {
  }

  lemma Regrouped(a: string, b: string, c: string)
    ensures a + b + c == a + (b + c)
  {
  }

  lemma FirstAndRest(appends: seq<CutAppend>)
    requires appends != []
    ensures NothingWritten(appends) <==> appends[0].written == 0 && NothingWritten(appends[1..])
  {
    if appends[0].written == 0 && NothingWritten(appends[1..]) {
      assert forall k | 0 < k < |appends| :: appends[k] == appends[1..][k - 1];
    }
  }

  lemma CutFacts(a: CutAppend)
    requires Possible(a)
    ensures var line := Dumps(DumpEvent(a.event));
      && line != "" && line[0] == '{' && Printable(line) && |Line(a.event)| == |line| + 1
      && (a.written == |Line(a.event)| ==> a.Cut() == line + "\n")
      && (a.written < |Line(a.event)| ==> a.Cut() == line[..a.written] && Printable(a.Cut()))
      && (0 < a.written < |Line(a.event)| ==> a.Cut() != "" && a.Cut()[0] == '{')
      && (a.written == 0 ==> a.Cut() == "")
  {
    hide Dumps, DumpEvent;
    var line := Dumps(DumpEvent(a.event));
    LineIsOneLine(a.event);
    if a.written < |Line(a.event)| { assert forall c :: c in line[..a.written] ==> c in line; }
  }

  lemma FirstKey(e: Event)
    ensures DumpEvent(e).Obj?
    ensures var keys := SortedKeys(DumpEvent(e).members.Keys); keys != [] && keys[0] == "attempt_id"
  {
    hide NatText;
    var keys := DumpEvent(e).members.Keys;
    assert "attempt_id" in keys;
    var least := Least(keys);
    assert IsLeast("attempt_id", keys);
    LessIsTotal("attempt_id", least);
  }

  lemma LineStartsWithKey(e: Event)
    requires e.Valid()
    ensures StartsWithKey(Dumps(DumpEvent(e))) && Whole(Dumps(DumpEvent(e)))
  {
    hide DumpEvent, Whole, SortedKeys;
    DumpedEventIsWellFormed(e);
    TextIsWhole(DumpEvent(e), Compact, 0);
    FirstKey(e);
    KeysText(DumpEvent(e), SortedKeys(DumpEvent(e).members.Keys));
  }

  lemma EscapedA()
    ensures Escape('a') == "a"
  {
  }

  lemma QuotedStarts(s: string)
    requires s != "" && Escape(s[0]) == [s[0]]
    ensures |Quoted(s)| >= 2 && Quoted(s)[0] == '\"' && Quoted(s)[1] == s[0]
  {
    hide Escape;
  }

  lemma KeysText(j: JSON, keys: seq<string>)
    requires j.Obj? && Elements(keys) <= j.members.Keys && keys != [] && keys[0] == "attempt_id"
    ensures var t := MembersText(j, keys, Compact, 1); |t| >= 2 && t[0] == '\"' && t[1] == 'a'
  {
    hide Text, Quoted, Escape;
    EscapedA();
    QuotedStarts(keys[0]);
  }

  lemma {:induction false} HeadStaysUnfinished(m: Mode, appends: seq<CutAppend>)
    requires Unfinished(m) && AllPossible(appends)
    ensures Unfinished(Walk(m, Head(appends)))
    decreases |appends|
  {
    hide Walk, Dumps, DumpEvent, Unfinished;
    if appends == [] {
      NoSteps(m);
    } else {
      var a, more := appends[0], appends[1..];
      var line := Dumps(DumpEvent(a.event));
      LineStartsWithKey(a.event);
      if a.written == |Line(a.event)| {
        assert line[..|line|] == line;
        GluedIsUnfinished(m, line, |line|);
      } else {
        assert a.Cut() == line[..a.written];
        GluedIsUnfinished(m, line, a.written);
        WalkConcat(m, a.Cut(), Head(more));
        HeadStaysUnfinished(Walk(m, a.Cut()), more);
      }
    }
  }

  lemma NoSteps(m: Mode)
    ensures Walk(m, "") == m
  {
  }

  /** A torn line that anything follows is no JSON. */
  lemma GluedLineIsNotJson(a: CutAppend, more: seq<CutAppend>)
    requires Possible(a) && 0 < a.written < |Line(a.event)| && AllPossible(more) && !NothingWritten(more)
    ensures Loads(a.Cut() + Head(more)) == None
  {
    hide Text, DumpEvent, ScanValue, SkipSpace, Walk, Head;
    var j, line := DumpEvent(a.event), Dumps(DumpEvent(a.event));
    var rest, k := HeadIsFirstLine(more);
    DumpedEventIsWellFormed(a.event);
    EventDumpsObject(a.event);
    assert a.Cut() == line[..a.written];
    if a.written < |line| {
      TornIsUnfinished(j, Compact, a.written);
      HeadStaysUnfinished(Walk(Outside(0), a.Cut()), more);
      WalkConcat(Outside(0), a.Cut(), Head(more));
      if Loads(a.Cut() + Head(more)).Some? { JsonIsBalanced(a.Cut() + Head(more)); }
    } else {
      assert line[..a.written] == line;
      LineIsOneLine(a.event);
      ScanText(j, Compact, 0, Head(more));
      NoSpaceAhead(line + Head(more));
      NoSpaceAhead(Head(more));
    }
  }

  lemma NoSpaceAhead(s: string)
    requires s != "" && s[0] == '{'
    ensures SkipSpace(s) == s
  {
  }

  lemma TornThenMore(a: CutAppend, more: seq<CutAppend>, number: nat)
    requires Possible(a) && 0 < a.written < |Line(a.event)| && AllPossible(more) && !NothingWritten(more)
    ensures EventsOf(SplitLines(a.Cut() + Appended(more)), number) == Err(CorruptLine(number, InvalidJson))
  {
    hide SplitLines, EventsOf, Appended, Dumps, DumpEvent, Loads;
    var rest, k := HeadIsFirstLine(more);
    GluedLineIsNotJson(a, more);
    LineIsOneLine(a.event);
    var line := Dumps(DumpEvent(a.event));
    assert a.Cut() == line[..a.written];
    assert forall c :: c in line[..a.written] ==> c in line;
    hide Head;
    PrintableConcat(a.Cut(), Head(more));
    var glued := a.Cut() + Head(more);
    assert a.Cut() + Appended(more) == glued + rest;
    FirstOfLines(glued, rest);
    RefusedFirstLine(glued, if rest == "" then [] else SplitLines(rest[1..]), number);
  }

  lemma FirstOfLines(line: string, rest: string)
    requires Printable(line) && line != "" && (rest != "" ==> rest[0] == '\n')
    ensures SplitLines(line + rest) == [line] + if rest == "" then [] else SplitLines(rest[1..])
  {
    hide SplitLines;
    if rest == "" {
      assert line + rest == line;
      SplitLastLine(line);
    } else {
      assert line + rest == line + "\n" + rest[1..];
      SplitAfterLine(line, rest[1..]);
    }
  }

  lemma CompleteLineReads(e: Event, text: string, number: nat)
    requires e.Valid()
    ensures EventsOf(SplitLines(Line(e) + text), number) ==
      if e.schemaVersion == CURRENT_SCHEMA_VERSION then Prepend([e], EventsOf(SplitLines(text), number + 1))
      else Err(CorruptLine(number, BadVersion))
  {
    hide SplitLines, EventsOf, Dumps, DumpEvent;
    LineIsOneLine(e);
    SplitAfterLine(Dumps(DumpEvent(e)), text);
    FirstLine(e, SplitLines(text), number);
  }

  lemma {:induction false} AppendedReads(appends: seq<CutAppend>, number: nat)
    requires AllPossible(appends)
    ensures EventsOf(SplitLines(Appended(appends)), number) == AppendReading(appends, number)
  {
    hide SplitLines, EventsOf, Line, TornReading;
    if appends == [] {
      EmptyHasNoLines();
      NothingLeft();
    } else {
      var a, more := appends[0], appends[1..];
      var text := Appended(more);
      if a.written == 0 {
        assert a.Cut() + text == text;
        AppendedReads(more, number);
      } else if a.written == |Line(a.event)| {
        assert a.Cut() == Line(a.event);
        CompleteLineReads(a.event, text, number);
        AppendedReads(more, number + 1);
      } else if NothingWritten(more) {
        var rest, k := HeadIsFirstLine(more);
        assert a.Cut() + text == a.Cut();
        TornLineReads(a.event, a.written, number);
      } else {
        TornThenMore(a, more, number);
      }
    }
  }

  /** Whatever appends crashes cut short, and wherever, a read of the journal returns exactly the events whose whole
      text got there, in order, or refuses it at the first torn line; it never invents, loses or reorders one. */
  lemma JournalIsNeverMisread(appends: seq<CutAppend>)
    requires AllPossible(appends)
    ensures ReadJournal(Appended(appends)) == AppendReading(appends, 1)
    ensures ReadJournal(Appended(appends)).Ok? ==> ReadJournal(Appended(appends)).value == EventsWritten(appends)
  {
    hide AppendReading, EventsWritten, SplitLines, EventsOf;
    AppendedReads(appends, 1);
    ReadingIsWritten(appends, 1);
  }

  lemma {:induction false} ReadingIsWritten(appends: seq<CutAppend>, number: nat)
    requires AllPossible(appends)
    ensures AppendReading(appends, number).Ok? ==> AppendReading(appends, number).value == EventsWritten(appends)
  {
    hide Line;
    if appends != [] {
      LineIsLong(appends[0].event);
      ReadingIsWritten(appends[1..], number);
      ReadingIsWritten(appends[1..], number + 1);
      if NothingWritten(appends[1..]) { NoEventsWritten(appends[1..]); }
    }
  }

  lemma LineIsLong(e: Event)
    requires e.Valid()
    ensures |Line(e)| >= 2
  {
    hide Dumps, DumpEvent;
    LineIsOneLine(e);
  }

  lemma {:induction false} NoEventsWritten(appends: seq<CutAppend>)
    requires AllPossible(appends) && NothingWritten(appends)
    ensures EventsWritten(appends) == []
  {
    hide Line;
    if appends != [] {
      LineIsLong(appends[0].event);
      NoEventsWritten(appends[1..]);
    }
  }

  /** What each append must be for the journal to read: nothing, or a whole line of the current version, or as the
      last one such a line without its line feed. */
  ghost predicate Sound(appends: seq<CutAppend>, k: nat)
    requires k < |appends|
  {
    var CutAppend(e, written) := appends[k];
    written > 0 ==>
      && e.schemaVersion == CURRENT_SCHEMA_VERSION
      && (written == |Line(e)| || (written == |Line(e)| - 1 && NothingWritten(appends[k + 1..])))
  }

  ghost predicate AllSound(appends: seq<CutAppend>) { forall k | 0 <= k < |appends| :: Sound(appends, k) }

  lemma AllSoundFirst(appends: seq<CutAppend>)
    requires appends != []
    ensures AllSound(appends) <==> Sound(appends, 0) && AllSound(appends[1..])
  {
    hide Sound;
    if AllSound(appends) {
      forall k | 0 <= k < |appends[1..]| ensures Sound(appends[1..], k) {
        assert Sound(appends, k + 1);
        SoundShifts(appends, k);
      }
    }
    if Sound(appends, 0) && AllSound(appends[1..]) {
      forall k | 0 < k < |appends| ensures Sound(appends, k) {
        assert Sound(appends[1..], k - 1);
        SoundShifts(appends, k - 1);
      }
    }
  }

  lemma SoundShifts(appends: seq<CutAppend>, k: nat)
    requires k + 1 < |appends|
    ensures Sound(appends, k + 1) <==> Sound(appends[1..], k)
  {
    hide Line;
    assert appends[1..][k + 1..] == appends[k + 2..];
  }

  lemma {:induction false} ReadingIsSound(appends: seq<CutAppend>, number: nat)
    requires AllPossible(appends)
    ensures AppendReading(appends, number).Ok? <==> AllSound(appends)
  {
    hide Line, AllSound;
    if appends == [] {
      SoundNone();
    } else {
      var a, more := appends[0], appends[1..];
      AllSoundFirst(appends);
      ReadingIsSound(more, number);
      ReadingIsSound(more, number + 1);
      assert appends[0 + 1..] == more;
      if NothingWritten(more) { NothingIsSound(more); }
      LineIsLong(a.event);
    }
  }

  lemma SoundNone()
    ensures AllSound([])
  {
  }

  lemma NothingIsSound(appends: seq<CutAppend>)
    requires NothingWritten(appends)
    ensures AllSound(appends)
  {
  }

  /** A journal reads if and only if no append was torn, except that the last one may lack its line feed, and every
      event written has the current schema version. */
  lemma ReadableExactly(appends: seq<CutAppend>)
    requires AllPossible(appends)
    ensures ReadJournal(Appended(appends)).Ok? <==> AllSound(appends)
  {
    hide ReadJournal, AppendReading, AllSound;
    JournalIsNeverMisread(appends);
    ReadingIsSound(appends, 1);
  }

  predicate EndsLine(text: string) { text == "" || text[|text| - 1] == '\n' }

  /** What to look at before an append: a journal that reads goes on reading, with the event at its end, exactly if
      it is empty or ends in a line feed. */
  lemma AppendIsReadable(appends: seq<CutAppend>, e: Event)
    requires AllPossible(appends) && ReadJournal(Appended(appends)).Ok?
    requires e.Valid() && e.schemaVersion == CURRENT_SCHEMA_VERSION
    ensures var before, after := ReadJournal(Appended(appends)), ReadJournal(Appended(appends) + Line(e));
      && (after.Ok? <==> EndsLine(Appended(appends)))
      && (after.Ok? ==> after.value == before.value + [e])
  {
    hide ReadJournal, Line, AllSound, EndsLine, EventsWritten;
    var more := appends + [CutAppend(e, |Line(e)|)];
    ReadableExactly(appends);
    SoundEnd(appends, e);
    AppendedSnoc(appends, CutAppend(e, |Line(e)|));
    assert CutAppend(e, |Line(e)|).Cut() == Line(e);
    ReadableExactly(more);
    JournalIsNeverMisread(appends);
    JournalIsNeverMisread(more);
    WrittenSnoc(appends, e);
  }

  lemma {:induction false} AppendedSnoc(appends: seq<CutAppend>, a: CutAppend)
    ensures Appended(appends + [a]) == Appended(appends) + a.Cut()
  {
    hide Line;
    if appends == [] {
      assert [a][1..] == [];
      assert Appended([a]) == a.Cut() + Appended([]);
    } else {
      assert (appends + [a])[1..] == appends[1..] + [a];
      AppendedSnoc(appends[1..], a);
    }
  }

  lemma {:induction false} WrittenSnoc(appends: seq<CutAppend>, e: Event)
    ensures EventsWritten(appends + [CutAppend(e, |Line(e)|)]) == EventsWritten(appends) + [e]
  {
    hide Line;
    var a := CutAppend(e, |Line(e)|);
    if appends == [] {
      assert [a][1..] == [];
    } else {
      assert (appends + [a])[1..] == appends[1..] + [a];
      WrittenSnoc(appends[1..], e);
    }
  }

  /** In a journal that reads, the text ends a line exactly if no append lacks its line feed. */
  lemma {:induction false} SoundEnd(appends: seq<CutAppend>, e: Event)
    requires AllPossible(appends) && AllSound(appends)
    requires e.Valid() && e.schemaVersion == CURRENT_SCHEMA_VERSION
    ensures EndsLine(Appended(appends)) <==> AllSound(appends + [CutAppend(e, |Line(e)|)])
  {
    hide Line, EndsLine, AllSound, Sound;
    var last := CutAppend(e, |Line(e)|);
    LineIsLong(e);
    if appends == [] {
      assert [] + [last] == [last];
      EntireIsSound(e);
    } else {
      assert (appends + [last])[1..] == appends[1..] + [last];
      AllSoundFirst(appends);
      AllSoundFirst(appends + [last]);
      SoundEnd(appends[1..], e);
      FirstEnds(appends, last);
    }
  }

  lemma EntireIsSound(e: Event)
    requires e.schemaVersion == CURRENT_SCHEMA_VERSION
    ensures AllSound([CutAppend(e, |Line(e)|)]) && EndsLine(Appended([]))
  {
    hide Line;
  }

  /** A sound first append that lacks its line feed is not sound before another one. */
  lemma FirstEnds(appends: seq<CutAppend>, last: CutAppend)
    requires appends != [] && AllPossible(appends) && Sound(appends, 0) && last.written > 0
    ensures EndsLine(Appended(appends)) <==> Sound(appends + [last], 0) && EndsLine(Appended(appends[1..]))
  {
    hide Line, EndsLine, NothingWritten;
    var a, more := appends[0], appends[1..];
    assert appends[0 + 1..] == more && (appends + [last])[0] == a;
    LastIsWritten(appends + [last]);
    if a.written == |Line(a.event)| {
      WholeEnds(a, Appended(more));
    } else if a.written > 0 {
      HeadIsEmpty(more);
      TornEnds(a);
    } else {
      TailEnds(a.Cut(), Appended(more));
    }
  }

  lemma LastIsWritten(appends: seq<CutAppend>)
    requires |appends| > 1 && appends[|appends| - 1].written > 0
    ensures !NothingWritten(appends[0 + 1..])
  {
    assert appends[0 + 1..][|appends| - 2] == appends[|appends| - 1];
  }

  lemma WholeEnds(a: CutAppend, rest: string)
    requires Possible(a) && a.written == |Line(a.event)|
    ensures EndsLine(a.Cut() + rest) <==> EndsLine(rest)
  {
    hide Line;
    LineEnds(a.event);
    TailEnds(a.Cut(), rest);
  }

  lemma TornEnds(a: CutAppend)
    requires Possible(a) && 0 < a.written == |Line(a.event)| - 1
    ensures !EndsLine(a.Cut() + "")
  {
    hide Line;
    LineEnds(a.event);
    TailEnds(a.Cut(), "");
  }

  lemma HeadIsEmpty(appends: seq<CutAppend>)
    requires AllPossible(appends) && NothingWritten(appends)
    ensures Appended(appends) == ""
  {
    var rest, k := HeadIsFirstLine(appends);
  }

  lemma LineEnds(e: Event)
    requires e.Valid()
    ensures var line := Line(e); |line| >= 2 && line[|line| - 1] == '\n' && line[|line| - 2] != '\n'
  {
    hide Dumps, DumpEvent;
    LineIsOneLine(e);
    var text := Dumps(DumpEvent(e));
    assert text[|text| - 1] in text;
  }

  lemma TailEnds(a: string, b: string)
    ensures b != "" ==> EndsLine(a + b) == EndsLine(b)
    ensures b == "" ==> a + b == a
  {
  }

  // -- the lines and the whole text -----------------------------------------

  /** The text of one of these appends, read as JSON. */
  ghost predicate Reads(appends: seq<CutAppend>, text: string) {
    Loads(text).Some? ==> exists k :: 0 <= k < |appends| && Loads(text) == Some(DumpEvent(appends[k].event))
  }

  lemma ReadsLater(appends: seq<CutAppend>, k: nat, text: string)
    requires k <= |appends| && Reads(appends[k..], text)
    ensures Reads(appends, text)
  {
    hide Loads, DumpEvent;
    if Loads(text).Some? {
      var i :| 0 <= i < |appends[k..]| && Loads(text) == Some(DumpEvent(appends[k..][i].event));
      assert appends[k..][i] == appends[k + i];
    }
  }

  lemma CutReads(a: CutAppend)
    requires Possible(a)
    ensures Loads(a.Cut()) == if a.written + 1 >= |Line(a.event)| then Some(DumpEvent(a.event)) else None
  {
    hide DumpEvent, Text, Loads;
    var line := Dumps(DumpEvent(a.event));
    DumpedEventIsWellFormed(a.event);
    LoadsInvertsDumps(DumpEvent(a.event), Compact);
    if a.written < |line| {
      assert a.Cut() == line[..a.written];
      TornLineIsNotJson(a.event, a.written);
    } else if a.written == |line| {
      assert a.Cut() == line;
    } else {
      assert a.Cut() == line + "\n" + "";
      LineThenReads(a.event, "");
      assert SkipSpace("") == "";
    }
  }

  lemma LineThenReads(e: Event, t: string)
    requires e.Valid()
    ensures Loads(Dumps(DumpEvent(e)) + "\n" + t) == if SkipSpace(t) == "" then Some(DumpEvent(e)) else None
  {
    hide DumpEvent, Text, ScanValue;
    DumpedEventIsWellFormed(e);
    LineIsOneLine(e);
    ScanText(DumpEvent(e), Compact, 0, "\n" + t);
    EventDumpsObject(e);
    SkipSpaceOver("\n", t);
    assert Dumps(DumpEvent(e)) + "\n" + t == Dumps(DumpEvent(e)) + ("\n" + t);
  }

  /** Every line of the journal that is JSON at all is the whole dump of one appended event, wherever appends were
      torn before or after it. */
  lemma {:induction false} LinesAreEvents(appends: seq<CutAppend>)
    requires AllPossible(appends)
    ensures forall line | line in SplitLines(Appended(appends)) :: Reads(appends, line)
    decreases |appends|
  {
    hide SplitLines, Reads, Line, Head, Printable;
    if appends == [] {
      EmptyHasNoLines();
    } else if NothingWritten(appends) {
      HeadIsEmpty(appends);
      EmptyHasNoLines();
    } else {
      var rest, k := HeadIsFirstLine(appends);
      FirstOfLines(Head(appends), rest);
      HeadReads(appends);
      if rest != "" {
        assert rest[1..] == Appended(appends[k..]);
        RestIsShorter(appends, rest, k);
        LinesAreEvents(appends[k..]);
        forall line | line in SplitLines(rest[1..]) ensures Reads(appends, line) { ReadsLater(appends, k, line); }
      }
    }
  }

  /** After a line feed at least one append is used up. */
  lemma RestIsShorter(appends: seq<CutAppend>, rest: string, k: nat)
    requires AllPossible(appends) && appends != [] && k <= |appends|
    requires Appended(appends) == Head(appends) + rest && rest == "\n" + Appended(appends[k..])
    ensures k > 0
  {
    hide Head, Appended;
    assert appends[0..] == appends;
    assert |Appended(appends)| == |Head(appends)| + 1 + |Appended(appends[k..])|;
  }

  lemma {:induction false} HeadReads(appends: seq<CutAppend>)
    requires AllPossible(appends) && !NothingWritten(appends)
    ensures Reads(appends, Head(appends))
  {
    hide Loads, DumpEvent, Dumps;
    var a, more := appends[0], appends[1..];
    CutReads(a);
    if a.written == |Line(a.event)| {
      CutReads(CutAppend(a.event, |Line(a.event)| - 1));
      assert CutAppend(a.event, |Line(a.event)| - 1).Cut() == Dumps(DumpEvent(a.event));
      assert Loads(Head(appends)) == Some(DumpEvent(appends[0].event));
    } else if a.written == 0 {
      assert Head(appends) == Head(more);
      HeadReads(more);
      ReadsLater(appends, 1, Head(appends));
    } else if NothingWritten(more) {
      NoHead(more);
      assert Head(appends) == a.Cut();
      assert Loads(Head(appends)).Some? ==> Loads(Head(appends)) == Some(DumpEvent(appends[0].event));
    } else {
      GluedLineIsNotJson(a, more);
    }
  }

  lemma {:induction false} NoHead(appends: seq<CutAppend>)
    requires AllPossible(appends) && NothingWritten(appends)
    ensures Head(appends) == ""
  {
    hide Line;
    if appends != [] {
      LineIsLong(appends[0].event);
      NoHead(appends[1..]);
    }
  }

  lemma {:induction false} AppendedStaysUnfinished(m: Mode, appends: seq<CutAppend>)
    requires Unfinished(m) && AllPossible(appends)
    ensures Unfinished(Walk(m, Appended(appends)))
    decreases |appends|
  {
    hide Walk, Dumps, DumpEvent, Unfinished;
    if appends == [] {
      NoSteps(m);
    } else {
      var a, more := appends[0], appends[1..];
      var line := Dumps(DumpEvent(a.event));
      LineStartsWithKey(a.event);
      if a.written == |Line(a.event)| {
        assert line[..|line|] == line;
        GluedIsUnfinished(m, line, |line|);
        WalkConcat(m, line, ['\n']);
        OneStep(Walk(m, line), '\n');
        LineFeedKeeps(Walk(m, line));
        assert a.Cut() == line + ['\n'];
      } else {
        assert a.Cut() == line[..a.written];
        GluedIsUnfinished(m, line, a.written);
      }
      WalkConcat(m, a.Cut(), Appended(more));
      AppendedStaysUnfinished(Walk(m, a.Cut()), more);
    }
  }

  lemma LineFeedKeeps(m: Mode)
    requires Unfinished(m)
    ensures Unfinished(Step(m, '\n'))
  {
  }

  /** The whole text of a journal is JSON only where it is the one event in it. */
  lemma {:induction false} WholeJournalReads(appends: seq<CutAppend>)
    requires AllPossible(appends)
    ensures Reads(appends, Appended(appends))
  {
    hide Loads, DumpEvent, Dumps, Reads;
    if appends == [] {
      NothingReads();
    } else {
      var a, more := appends[0], appends[1..];
      var text := Appended(more);
      if a.written == 0 {
        assert a.Cut() + text == text;
        WholeJournalReads(more);
        ReadsLater(appends, 1, text);
      } else if NothingWritten(more) {
        HeadIsEmpty(more);
        assert a.Cut() + text == a.Cut();
        CutReads(a);
        ReadsFirst(appends, a.Cut());
      } else {
        GluedTextIsNotJson(a, more);
        ReadsFirst(appends, a.Cut() + text);
      }
    }
  }

  lemma NothingReads()
    ensures Reads([], "")
  {
  }

  lemma ReadsFirst(appends: seq<CutAppend>, text: string)
    requires appends != [] && (Loads(text) == None || Loads(text) == Some(DumpEvent(appends[0].event)))
    ensures Reads(appends, text)
  {
    hide Loads, DumpEvent;
  }

  lemma GluedTextIsNotJson(a: CutAppend, more: seq<CutAppend>)
    requires Possible(a) && a.written > 0 && AllPossible(more) && !NothingWritten(more)
    ensures Loads(a.Cut() + Appended(more)) == None
  {
    hide Text, DumpEvent, ScanValue, SkipSpace, Walk, Head;
    var j, line, text := DumpEvent(a.event), Dumps(DumpEvent(a.event)), Appended(more);
    var rest, k := HeadIsFirstLine(more);
    assert text != "" && text[0] == '{';
    NoSpaceAhead(text);
    DumpedEventIsWellFormed(a.event);
    EventDumpsObject(a.event);
    LineIsOneLine(a.event);
    if a.written < |line| {
      assert a.Cut() == line[..a.written];
      TornIsUnfinished(j, Compact, a.written);
      AppendedStaysUnfinished(Walk(Outside(0), a.Cut()), more);
      WalkConcat(Outside(0), a.Cut(), text);
      if Loads(a.Cut() + text).Some? { JsonIsBalanced(a.Cut() + text); }
    } else if a.written == |line| {
      assert a.Cut() == line;
      ScanText(j, Compact, 0, text);
      NoSpaceAhead(line + text);
    } else {
      assert a.Cut() + text == line + "\n" + text;
      LineThenReads(a.event, text);
    }
  }

  // -- untorn journals ------------------------------------------------------

  lemma {:induction false} EntireText(events: seq<Event>)
    ensures Appended(Entire(events)) == JournalText(events)
  {
    hide Line;
    if events != [] {
      EntireText(events[1..]);
      assert Entire(events)[1..] == Entire(events[1..]);
      assert Entire(events)[0].Cut() == Line(events[0]);
    }
  }

  lemma RefusedFirstLine(line: string, lines: seq<string>, number: nat)
    requires line != "" && line[0] == '{' && Loads(line) == None
    ensures EventsOf([line] + lines, number) == Err(CorruptLine(number, InvalidJson))
  {
    hide Loads;
    NotBlank(line);
  }
}
