/**
 * The reader inverts the printer: events written as frames, and read back in
 * any chunks, are the same events.
 */
module EventStreamRoundTrip {

  import opened TextLines
  import opened EventStream
  import opened EventStreamChunks

  ghost predicate Free(s: string, ch: char) {
    forall i :: 0 <= i < |s| ==> s[i] != ch
  }

  /** Fields without line ends, an id without NUL, data of any lines. */
  ghost predicate Printable(e: ServerEvent) {
    Free(e.event, CR) && Free(e.event, LF)
    && Free(e.id, CR) && Free(e.id, LF) && Free(e.id, NUL)
    && Free(e.data, CR)
  }

  function DataLines(lines: seq<string>): seq<string> {
    seq(|lines|, i requires 0 <= i < |lines| => "data: " + lines[i])
  }

  function EventLines(e: ServerEvent): (lines: seq<string>)
    ensures |lines| > 0
  {
    ["event: " + e.event, "id: " + e.id] + DataLines(Lines(e.data))
  }

  function PrintEvent(e: ServerEvent): string {
    JoinLines(EventLines(e)) + [LF, LF]
  }

  function PrintEvents(events: seq<ServerEvent>): string {
    if events == [] then "" else PrintEvent(events[0]) + PrintEvents(events[1..])
  }

  /* ---- lines ---- */

  ghost predicate LineList(lines: seq<string>) {
    |lines| > 0 && forall i :: 0 <= i < |lines| ==> Free(lines[i], LF)
  }

  lemma FirstLineEnd(line: string, more: string)
    requires Free(line, LF)
    ensures FirstOf(line, LF) == |line|
    ensures FirstOf(line + [LF] + more, LF) == |line|
  {
    var text := line + [LF] + more;
    assert text[|line|] == LF;
    assert forall j :: 0 <= j < |line| ==> text[j] == line[j];
  }

  lemma {:induction false} LinesOfJoined(lines: seq<string>)
    requires LineList(lines)
    ensures Lines(JoinLines(lines)) == lines
    decreases |lines|
  {
    FirstLineEnd(lines[0], if |lines| == 1 then "" else JoinLines(lines[1..]));
    if |lines| > 1 {
      LinesOfJoined(lines[1..]);
      var text := JoinLines(lines);
      assert text[..|lines[0]|] == lines[0] && text[|lines[0]| + 1..] == JoinLines(lines[1..]);
    }
  }

  lemma {:induction false} JoinedLines(s: string)
    ensures LineList(Lines(s)) && JoinLines(Lines(s)) == s
    decreases |s|
  {
    var i := FirstOf(s, LF);
    if i < |s| {
      JoinedLines(s[i + 1..]);
      assert Lines(s)[1..] == Lines(s[i + 1..]);
      assert s == s[..i] + [LF] + s[i + 1..];
    }
  }

  lemma {:induction false} LinesFree(s: string, ch: char)
    requires Free(s, ch)
    ensures forall k :: 0 <= k < |Lines(s)| ==> Free(Lines(s)[k], ch)
    decreases |s|
  {
    var i := FirstOf(s, LF);
    if i < |s| {
      assert Free(s[i + 1..], ch);
      LinesFree(s[i + 1..], ch);
      assert Lines(s)[1..] == Lines(s[i + 1..]);
    }
  }

  /* ---- a frame is one frame ---- */

  ghost predicate Solid(lines: seq<string>) {
    LineList(lines) && forall i :: 0 <= i < |lines| ==> lines[i] != "" && Free(lines[i], CR)
  }

  /** Joined non-empty lines hold no blank line, no CR, and end in no LF. */
  lemma {:induction false} JoinedSolid(lines: seq<string>)
    requires Solid(lines)
    ensures var s := JoinLines(lines);
            s != "" && s[0] != LF && s[|s| - 1] != LF && Free(s, CR) && forall i :: !BlankAt(s, i)
    decreases |lines|
  {
    var line, s := lines[0], JoinLines(lines);
    if |lines| > 1 {
      var more := JoinLines(lines[1..]);
      JoinedSolid(lines[1..]);
      assert s == line + [LF] + more;
      forall i ensures !BlankAt(s, i) {
        if 0 <= i < |line| {
          assert s[i] == line[i];
        } else if i == |line| {
          assert s[i + 1] == more[0];
        } else {
          assert !BlankAt(more, i - |line| - 1);
        }
      }
      forall i | 0 <= i < |s| ensures s[i] != CR {
        if i > |line| {
          assert s[i] == more[i - |line| - 1];
        }
      }
    }
  }

  lemma CutFrame(frame: string, more: string)
    requires frame != "" && frame[|frame| - 1] != LF && forall i :: !BlankAt(frame, i)
    ensures Cut(frame + [LF, LF] + more) == Ahead(frame, Cut(more))
  {
    var s := frame + [LF, LF] + more;
    assert BlankAt(s, |frame|);
    forall j | 0 <= j < |frame| ensures !BlankAt(s, j) {
      assert !BlankAt(frame, j);
    }
    var i := FirstBlank(s);
    assert i == |frame|;
    assert s[..i] == frame && s[i + 2..] == more;
    CutAt(s, i, frame, more);
  }

  /* ---- reading one line ---- */

  lemma ColonAt(field: string, value: string)
    requires Free(field, ':')
    ensures FirstOf(field + ": " + value, ':') == |field|
  {
    var line := field + ": " + value;
    assert line[|field|] == ':';
    assert forall j :: 0 <= j < |field| ==> line[j] == field[j];
  }

  lemma ReadPrinted(r: Reading, field: string, value: string)
    requires Free(field, ':')
    ensures var line := field + ": " + value;
            ReadLine(r, line) ==
              if field == "data" then r.(data := r.data + [value])
              else if field == "event" then r.(event := value)
              else if field == "id" && NUL !in value then r.(id := value)
              else r
  {
    var line := field + ": " + value;
    ColonAt(field, value);
    assert line[..|field|] == field && line[|field| + 1..] == " " + value;
    assert StripSpace(" " + value) == value;
  }

  lemma {:induction false} ReadDataLines(r: Reading, lines: seq<string>)
    ensures ReadLines(r, DataLines(lines)) == r.(data := r.data + lines)
    decreases |lines|
  {
    if lines == [] {
      assert r.data + [] == r.data;
    } else {
      ReadPrinted(r, "data", lines[0]);
      var next := r.(data := r.data + [lines[0]]);
      assert DataLines(lines)[0] == "data" + ": " + lines[0];
      assert DataLines(lines)[1..] == DataLines(lines[1..]);
      ReadDataLines(next, lines[1..]);
      assert next.data + lines[1..] == r.data + lines;
    }
  }

  lemma EventLinesSolid(e: ServerEvent)
    requires Printable(e)
    ensures Solid(EventLines(e))
  {
    var lines, data := EventLines(e), Lines(e.data);
    JoinedLines(e.data);
    LinesFree(e.data, CR);
    forall i | 0 <= i < |lines| ensures lines[i] != "" && Free(lines[i], LF) && Free(lines[i], CR) {
      if i >= 2 {
        assert lines[i] == "data: " + data[i - 2];
        assert Free(data[i - 2], CR) && Free(data[i - 2], LF);
      }
    }
  }

  lemma ReadHeaders(r: Reading, event: string, id: string, rest: seq<string>)
    requires NUL !in id
    ensures ReadLines(r, ["event: " + event, "id: " + id] + rest) == ReadLines(r.(event := event, id := id), rest)
  {
    var lines := ["event: " + event, "id: " + id] + rest;
    ReadPrinted(r, "event", event);
    ReadPrinted(r.(event := event), "id", id);
    assert lines[0] == "event" + ": " + event && lines[1..][0] == "id" + ": " + id;
    assert lines[1..][1..] == rest;
  }

  lemma ReadPrintedFrame(e: ServerEvent)
    requires Printable(e)
    ensures ReadFrame(JoinLines(EventLines(e))) == [e]
  {
    var data := Lines(e.data);
    EventLinesSolid(e);
    LinesOfJoined(EventLines(e));
    JoinedLines(e.data);
    ReadHeaders(FRESH, e.event, e.id, DataLines(data));
    ReadDataLines(Reading(e.event, e.id, []), data);
    assert [] + data == data;
  }

  /* ---- the round trip ---- */

  lemma CutPrinted(e: ServerEvent, more: string)
    requires Printable(e)
    ensures Cut(PrintEvent(e) + more) == Ahead(JoinLines(EventLines(e)), Cut(more))
    ensures Free(PrintEvent(e), CR)
  {
    EventLinesSolid(e);
    JoinedSolid(EventLines(e));
    CutFrame(JoinLines(EventLines(e)), more);
  }

  lemma {:induction false} PrintedFrames(events: seq<ServerEvent>)
    requires forall e :: e in events ==> Printable(e)
    ensures Cut(PrintEvents(events)).rest == ""
    ensures FrameEvents(Cut(PrintEvents(events)).frames) == events
    decreases |events|
  {
    if events != [] {
      var e, frame := events[0], JoinLines(EventLines(events[0]));
      var more := Cut(PrintEvents(events[1..]));
      PrintedFrames(events[1..]);
      CutPrinted(e, PrintEvents(events[1..]));
      ReadPrintedFrame(e);
      AheadEvents(frame, more, e, events[1..]);
      assert events == [e] + events[1..];
    }
  }

  lemma AheadEvents(frame: string, more: Frames, e: ServerEvent, rest: seq<ServerEvent>)
    requires ReadFrame(frame) == [e] && FrameEvents(more.frames) == rest
    ensures FrameEvents(Ahead(frame, more).frames) == [e] + rest
  {
    assert ([frame] + more.frames)[1..] == more.frames;
  }

  lemma {:induction false} PrintedFree(events: seq<ServerEvent>)
    requires forall e :: e in events ==> Printable(e)
    ensures Free(PrintEvents(events), CR)
  {
    if events != [] {
      CutPrinted(events[0], "");
      PrintedFree(events[1..]);
    }
  }

  lemma FreeIsPlain(s: string)
    requires Free(s, CR)
    ensures Plain(s) && !HasCrCrLf(s) && Normalize(s) == s
  {
    NormalizePlain(s);
  }

  /** Printing events and reading them gives the same events and no rest. */
  lemma RoundTrip(events: seq<ServerEvent>)
    requires forall e :: e in events ==> Printable(e)
    ensures Consumption(PrintEvents(events)) == Consumed(events, "")
  {
    PrintedFrames(events);
    PrintedFree(events);
    FreeIsPlain(PrintEvents(events));
  }

  /** The same, however a transport cuts the printed text. */
  lemma RoundTripInChunks(events: seq<ServerEvent>, chunks: seq<string>)
    requires forall e :: e in events ==> Printable(e)
    requires Concat(chunks) == PrintEvents(events)
    ensures Feed("", chunks) == Consumed(events, "")
  {
    RoundTrip(events);
    PrintedFree(events);
    FreeIsPlain(PrintEvents(events));
    ChunkInvariance(chunks);
  }
}
