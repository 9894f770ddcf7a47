/**
 * The incremental event-stream reader of the conversation journal: the subset
 * of sections 9.2.5 and 9.2.6 of the WHATWG HTML Standard that the client
 * reads. Line ends are LF or CR LF, an id is not carried across frames, and a
 * line without a colon is ignored.
 */
module EventStream {

  import opened Basics
  import opened TextLines

  const NUL := '\0'

  datatype ServerEvent = ServerEvent(event: string, id: string, data: string)

  /** The complete frames of a text and the partial frame after them. */
  datatype Frames = Frames(frames: seq<string>, rest: string)

  datatype Consumed = Consumed(events: seq<ServerEvent>, rest: string)

  /* ---- text ---- */

  predicate BlankAt(s: string, i: int) {
    0 <= i && i + 1 < |s| && s[i] == LF && s[i + 1] == LF
  }

  /** The position of the first blank line, LF LF, or the length when there is none. */
  function FirstBlank(s: string): (i: nat)
    ensures i <= |s|
    ensures i < |s| ==> BlankAt(s, i)
    ensures forall j :: 0 <= j < i ==> !BlankAt(s, j)
  {
    if |s| < 2 then |s|
    else if BlankAt(s, 0) then 0
    else
      assert forall j :: 1 <= j ==> (BlankAt(s, j) <==> BlankAt(s[1..], j - 1));
      1 + FirstBlank(s[1..])
  }

  /** Split at blank lines; the last piece is kept back. */
  function Cut(s: string): Frames {
    var i := FirstBlank(s);
    if i == |s| then Frames([], s)
    else
      var more := Cut(s[i + 2..]);
      Frames([s[..i]] + more.frames, more.rest)
  }

  /* ---- one frame ---- */

  datatype Reading = Reading(event: string, id: string, data: seq<string>)

  const FRESH := Reading("message", "", [])

  function StripSpace(s: string): string {
    if s != "" && s[0] == ' ' then s[1..] else s
  }

  function ReadLine(r: Reading, line: string): Reading {
    var colon := FirstOf(line, ':');
    if colon == |line| then r
    else
      var field, value := line[..colon], StripSpace(line[colon + 1..]);
      if field == "data" then r.(data := r.data + [value])
      else if field == "event" then r.(event := value)
      else if field == "id" && NUL !in value then r.(id := value)
      else r
  }

  function ReadLines(r: Reading, lines: seq<string>): Reading
    decreases |lines|
  {
    if lines == [] then r else ReadLines(ReadLine(r, lines[0]), lines[1..])
  }

  /** A frame without data dispatches nothing. */
  function Dispatch(r: Reading): seq<ServerEvent> {
    if r.data == [] then [] else [ServerEvent(r.event, r.id, JoinLines(r.data))]
  }

  function ReadFrame(frame: string): seq<ServerEvent> {
    Dispatch(ReadLines(FRESH, Lines(frame)))
  }

  function FrameEvents(frames: seq<string>): seq<ServerEvent> {
    FlatMap(ReadFrame, frames)
  }

  function Consumption(buffer: string): Consumed {
    var cut := Cut(Normalize(buffer));
    Consumed(FrameEvents(cut.frames), cut.rest)
  }

  lemma {:induction false} ReadLinesStep(r: Reading, lines: seq<string>, i: nat)
    requires i < |lines|
    ensures ReadLines(r, lines[..i + 1]) == ReadLine(ReadLines(r, lines[..i]), lines[i])
    decreases i
  {
    if i > 0 {
      ReadLinesStep(ReadLine(r, lines[0]), lines[1..], i - 1);
      assert lines[..i + 1][1..] == lines[1..][..i];
      assert lines[..i][1..] == lines[1..][..i - 1];
    } else {
      assert lines[..1] == [lines[0]] && lines[..0] == [];
    }
  }

  /** The nested loops over frames and their lines. */
  method ConsumeEventFrames(buffer: string) returns (events: seq<ServerEvent>, rest: string)
    ensures Consumed(events, rest) == Consumption(buffer)
  {
    var cut := Cut(Normalize(buffer));
    rest := cut.rest;
    events := [];
    for i := 0 to |cut.frames|
      invariant events == FrameEvents(cut.frames[..i])
    {
      FlatMapStep(ReadFrame, cut.frames, i);
      var lines := Lines(cut.frames[i]);
      var result := FRESH;
      for j := 0 to |lines|
        invariant result == ReadLines(FRESH, lines[..j])
      {
        ReadLinesStep(FRESH, lines, j);
        result := ReadLine(result, lines[j]);
      }
      assert lines[..|lines|] == lines;
      if result.data != [] {
        events := events + [ServerEvent(result.event, result.id, JoinLines(result.data))];
      }
    }
    assert cut.frames[..|cut.frames|] == cut.frames;
  }
}
