/**
 * What a frame dispatches, by the positions of its lines, and where frames begin
 * and end.
 */
module EventStreamFrames {

  import opened Basics
  import opened TextLines
  import opened EventStream
  import opened EventStreamChunks
  import opened EventStreamRoundTrip

  /* ---- what a line says ---- */

  /** What stands after a colon gives the value; one leading space does not count. */
  predicate Gives(tail: string, value: string) {
    tail == " " + value || (tail == value && (value == "" || value[0] != ' '))
  }

  /** The line gives `field` a value: they stand around its first colon. */
  predicate Says(line: string, field: string, value: string) {
    ':' !in field && field + ":" <= line && Gives(line[|field| + 1..], value)
  }

  lemma GivesExactly(tail: string, value: string)
    ensures Gives(tail, value) <==> value == StripSpace(tail)
  {
    if tail != "" && tail[0] == ' ' {
      assert tail == " " + tail[1..];
    }
    assert (" " + value)[1..] == value;
  }

  lemma ColonAfter(line: string, field: string)
    ensures ':' !in field && field + ":" <= line <==>
      FirstOf(line, ':') < |line| && field == line[..FirstOf(line, ':')]
  {
    var colon := FirstOf(line, ':');
    if ':' !in field && field + ":" <= line {
      assert line[|field|] == (field + ":")[|field|];
      assert forall j :: 0 <= j < |field| ==> line[j] == field[j];
      assert field == line[..|field|];
    }
    if colon < |line| && field == line[..colon] {
      assert field + ":" == line[..colon + 1];
    }
  }

  lemma SaysExactly(line: string, field: string, value: string)
    ensures Says(line, field, value) <==>
      var colon := FirstOf(line, ':');
      colon < |line| && field == line[..colon] && value == StripSpace(line[colon + 1..])
  {
    ColonAfter(line, field);
    if FirstOf(line, ':') < |line| {
      GivesExactly(line[FirstOf(line, ':') + 1..], value);
    }
  }

  ghost predicate HasField(line: string, field: string) {
    exists value :: Says(line, field, value)
  }

  /** A value that is taken: an id with a NUL is not. */
  predicate Sets(line: string, field: string, value: string) {
    Says(line, field, value) && (field == "id" ==> NUL !in value)
  }

  /* ---- what lines say together ---- */

  /** The places of all lines with the field, from the first to the last. */
  ghost predicate AllPlaces(lines: seq<string>, field: string, places: seq<int>) {
    (forall k :: 0 <= k < |places| ==> 0 <= places[k] < |lines| && HasField(lines[places[k]], field))
    && (forall i :: 0 <= i < |lines| && HasField(lines[i], field) ==> i in places)
    && forall j, k :: 0 <= j < k < |places| ==> places[j] < places[k]
  }

  /** The values of the field, in the order of the lines. */
  ghost predicate AllValues(lines: seq<string>, field: string, values: seq<string>) {
    exists places :: ValuesAt(lines, field, places, values)
  }

  ghost predicate ValuesAt(lines: seq<string>, field: string, places: seq<int>, values: seq<string>) {
    AllPlaces(lines, field, places) && |values| == |places|
    && forall k :: 0 <= k < |places| ==> Says(lines[places[k]], field, values[k])
  }

  ghost predicate SetAt(lines: seq<string>, field: string, i: int, value: string) {
    0 <= i < |lines| && Sets(lines[i], field, value)
  }

  /** The value of the last line that sets the field, or the default when none does. */
  ghost predicate LastValue(lines: seq<string>, field: string, default: string, value: string) {
    if exists i, v :: SetAt(lines, field, i, v)
    then exists i :: SetAt(lines, field, i, value) && forall j, v :: SetAt(lines, field, j, v) ==> j <= i
    else value == default
  }

  lemma PlacesGrow(lines: seq<string>, line: string, field: string, places: seq<int>)
    requires AllPlaces(lines, field, places) && HasField(line, field)
    ensures AllPlaces(lines + [line], field, places + [|lines|])
  {
    var more, all := lines + [line], places + [|lines|];
    assert more[|lines|] == line && all[|places|] == |lines|;
    forall i | 0 <= i < |more| && HasField(more[i], field) ensures i in all {
      if i < |lines| {
        assert i in places;
      }
    }
    forall k | 0 <= k < |all| ensures 0 <= all[k] < |more| && HasField(more[all[k]], field) {
      if k < |places| {
        assert more[all[k]] == lines[places[k]];
      }
    }
  }

  lemma ValueTaken(lines: seq<string>, line: string, field: string, places: seq<int>, values: seq<string>,
      value: string)
    requires ValuesAt(lines, field, places, values) && Says(line, field, value)
    ensures ValuesAt(lines + [line], field, places + [|lines|], values + [value])
  {
    var more, all, taken := lines + [line], places + [|lines|], values + [value];
    PlacesGrow(lines, line, field, places);
    forall k | 0 <= k < |all| ensures Says(more[all[k]], field, taken[k]) {
      if k < |places| {
        assert more[all[k]] == lines[places[k]];
      }
    }
  }

  lemma ValuesStay(lines: seq<string>, line: string, field: string, places: seq<int>, values: seq<string>)
    requires ValuesAt(lines, field, places, values) && !HasField(line, field)
    ensures ValuesAt(lines + [line], field, places, values)
  {
    var more := lines + [line];
    forall k | 0 <= k < |places| ensures more[places[k]] == lines[places[k]] {
    }
    forall i | 0 <= i < |more| && HasField(more[i], field) ensures i in places {
      assert i < |lines| && more[i] == lines[i];
    }
  }

  lemma ValuesGrow(lines: seq<string>, line: string, field: string, values: seq<string>, value: string)
    requires AllValues(lines, field, values)
    ensures Says(line, field, value) ==> AllValues(lines + [line], field, values + [value])
    ensures !HasField(line, field) ==> AllValues(lines + [line], field, values)
  {
    var places :| ValuesAt(lines, field, places, values);
    if Says(line, field, value) {
      ValueTaken(lines, line, field, places, values, value);
    } else if !HasField(line, field) {
      ValuesStay(lines, line, field, places, values);
    }
  }

  lemma LastGrows(lines: seq<string>, line: string, field: string, default: string, value: string, next: string)
    requires LastValue(lines, field, default, value)
    ensures Sets(line, field, next) ==> LastValue(lines + [line], field, default, next)
    ensures (forall v :: !Sets(line, field, v)) ==> LastValue(lines + [line], field, default, value)
  {
    var more := lines + [line];
    forall i, v | 0 <= i < |lines| ensures SetAt(more, field, i, v) <==> SetAt(lines, field, i, v) {
    }
    if Sets(line, field, next) {
      assert SetAt(more, field, |lines|, next);
    } else if forall v :: !Sets(line, field, v) {
      if i :| SetAt(lines, field, i, value) && forall j, v :: SetAt(lines, field, j, v) ==> j <= i {
        assert SetAt(more, field, i, value);
      }
    }
  }

  /** What the reading knows after some lines. */
  ghost predicate Knows(r: Reading, lines: seq<string>) {
    AllValues(lines, "data", r.data) && LastValue(lines, "event", "message", r.event)
    && LastValue(lines, "id", "", r.id)
  }

  /** What the reading does with a line. */
  function Took(r: Reading, says: bool, field: string, value: string): Reading {
    if !says then r
    else if field == "data" then r.(data := r.data + [value])
    else if field == "event" then r.(event := value)
    else if field == "id" && NUL !in value then r.(id := value)
    else r
  }

  /** A line says one thing at most, and the reading takes that. */
  lemma OneSaying(r: Reading, line: string) returns (says: bool, field: string, value: string)
    ensures forall f, v :: Says(line, f, v) <==> says && f == field && v == value
    ensures ReadLine(r, line) == Took(r, says, field, value)
  {
    var colon := FirstOf(line, ':');
    says, field, value := colon < |line|, "", "";
    if says {
      field, value := line[..colon], StripSpace(line[colon + 1..]);
    }
    forall f, v ensures Says(line, f, v) <==> says && f == field && v == value {
      SaysExactly(line, f, v);
    }
  }

  lemma KnowsMore(r: Reading, lines: seq<string>, line: string)
    requires Knows(r, lines)
    ensures Knows(ReadLine(r, line), lines + [line])
  {
    var says, field, value := OneSaying(r, line);
    FieldsDiffer();
    ValuesGrow(lines, line, "data", r.data, value);
    LastGrows(lines, line, "event", "message", r.event, value);
    LastGrows(lines, line, "id", "", r.id, value);
    assert HasField(line, "data") <==> says && field == "data";
  }

  lemma FieldsDiffer()
    ensures "data" != "event" && "data" != "id" && "event" != "id"
  {
    assert "data"[0] == 'd' && "event"[0] == 'e' && "id"[0] == 'i';
  }

  lemma {:induction false} ReadingKnows(lines: seq<string>, n: nat)
    requires n <= |lines|
    ensures Knows(ReadLines(FRESH, lines[..n]), lines[..n])
  {
    if n == 0 {
      assert ValuesAt([], "data", [], []);
    } else {
      ReadingKnows(lines, n - 1);
      ReadLinesStep(FRESH, lines, n - 1);
      assert lines[..n] == lines[..n - 1] + [lines[n - 1]];
      KnowsMore(ReadLines(FRESH, lines[..n - 1]), lines[..n - 1], lines[n - 1]);
    }
  }

  ghost predicate HasData(lines: seq<string>) {
    exists i :: 0 <= i < |lines| && HasField(lines[i], "data")
  }

  /** The event of some lines: all data lines joined, the last event name and the last id without NUL. */
  ghost predicate EventOf(lines: seq<string>, e: ServerEvent) {
    LastValue(lines, "event", "message", e.event) && LastValue(lines, "id", "", e.id)
    && exists values :: values != [] && AllValues(lines, "data", values) && e.data == JoinLines(values)
  }

  /** A frame without a data line dispatches nothing, and any other the one event of its lines. */
  lemma ReadFrameExactly(frame: string, lines: seq<string>)
    requires LineList(lines) && frame == JoinLines(lines)
    ensures !HasData(lines) ==> ReadFrame(frame) == []
    ensures HasData(lines) ==> |ReadFrame(frame)| == 1 && EventOf(lines, ReadFrame(frame)[0])
  {
    LinesOfJoined(lines);
    ReadingKnows(lines, |lines|);
    assert lines[..|lines|] == lines;
    var data := ReadLines(FRESH, lines).data;
    var places :| ValuesAt(lines, "data", places, data);
    if i :| 0 <= i < |lines| && HasField(lines[i], "data") {
      assert i in places;
    }
    if data != [] {
      assert HasField(lines[places[0]], "data");
    }
  }

  /* ---- the events of a buffer ---- */

  ghost predicate LinesOf(frame: string, lines: seq<string>) {
    LineList(lines) && frame == JoinLines(lines)
  }

  ghost predicate CarriesData(frame: string) {
    exists lines :: LinesOf(frame, lines) && HasData(lines)
  }

  ghost predicate FrameGives(frame: string, e: ServerEvent) {
    exists lines :: LinesOf(frame, lines) && EventOf(lines, e)
  }

  /** One event for each frame that carries data, in the order of the frames. */
  ghost predicate EventsAre(frames: seq<string>, places: seq<int>, events: seq<ServerEvent>) {
    |events| == |places|
    && (forall k :: 0 <= k < |places| ==> 0 <= places[k] < |frames| && CarriesData(frames[places[k]]))
    && (forall i :: 0 <= i < |frames| && CarriesData(frames[i]) ==> i in places)
    && (forall j, k :: 0 <= j < k < |places| ==> places[j] < places[k])
    && forall k :: 0 <= k < |places| ==> FrameGives(frames[places[k]], events[k])
  }

  lemma FrameEvent(frame: string)
    ensures if CarriesData(frame) then |ReadFrame(frame)| == 1 && FrameGives(frame, ReadFrame(frame)[0])
            else ReadFrame(frame) == []
  {
    var lines := Lines(frame);
    JoinedLines(frame);
    ReadFrameExactly(frame, lines);
    assert LinesOf(frame, lines);
    if other :| LinesOf(frame, other) && HasData(other) {
      LinesOfJoined(other);
    }
  }

  lemma EventsGrow(frames: seq<string>, places: seq<int>, events: seq<ServerEvent>, frame: string)
    requires EventsAre(frames, places, events)
    ensures !CarriesData(frame) ==> EventsAre(frames + [frame], places, events)
    ensures forall e :: CarriesData(frame) && FrameGives(frame, e) ==>
      EventsAre(frames + [frame], places + [|frames|], events + [e])
  {
    var more, all := frames + [frame], places + [|frames|];
    assert more[|frames|] == frame && all[|places|] == |frames|;
    forall i | 0 <= i < |more| && CarriesData(more[i]) ensures i in if CarriesData(frame) then all else places {
      if i < |frames| {
        assert i in places;
      }
    }
  }

  lemma EventsStep(frames: seq<string>, n: nat)
    requires n < |frames|
    ensures FrameEvents(frames[..n + 1]) == FrameEvents(frames[..n]) + ReadFrame(frames[n])
    ensures frames[..n + 1] == frames[..n] + [frames[n]]
  {
    FlatMapStep(ReadFrame, frames, n);
  }

  lemma {:induction false} EventsOfFrames(frames: seq<string>, n: nat) returns (places: seq<int>)
    requires n <= |frames|
    ensures EventsAre(frames[..n], places, FrameEvents(frames[..n]))
  {
    if n == 0 {
      places := [];
    } else {
      var earlier := EventsOfFrames(frames, n - 1);
      EventsStep(frames, n - 1);
      places := NextEvents(frames[..n - 1], earlier, FrameEvents(frames[..n - 1]), frames[n - 1],
                           frames[..n], FrameEvents(frames[..n]));
    }
  }

  lemma NextEvents(frames: seq<string>, places: seq<int>, events: seq<ServerEvent>, frame: string,
      more: seq<string>, after: seq<ServerEvent>)
      returns (next: seq<int>)
    requires EventsAre(frames, places, events) && more == frames + [frame] && after == events + ReadFrame(frame)
    ensures EventsAre(more, next, after)
  {
    FrameEvent(frame);
    EventsGrow(frames, places, events, frame);
    if CarriesData(frame) {
      assert ReadFrame(frame) == [ReadFrame(frame)[0]];
      next := places + [|frames|];
    } else {
      assert events + [] == events;
      next := places;
    }
  }

  /** A buffer gives one event for each of its complete frames that carries data, and keeps back the rest. */
  lemma EventsExactly(buffer: string) returns (places: seq<int>)
    ensures EventsAre(Cut(Normalize(buffer)).frames, places, Consumption(buffer).events)
    ensures Consumption(buffer).rest == Cut(Normalize(buffer)).rest
  {
    var frames := Cut(Normalize(buffer)).frames;
    places := EventsOfFrames(frames, |frames|);
    assert frames[..|frames|] == frames;
  }

  /* ---- where frames begin and end ---- */

  /** The text begins with this frame: it ends at the first blank line. */
  ghost predicate BeginsWith(s: string, frame: string) {
    frame + [LF, LF] <= s && forall i :: 0 <= i < |frame| ==> !BlankAt(s, i)
  }

  /** The text is the frames, each ended by its first blank line, and a rest without one. */
  ghost predicate Framed(s: string, frames: seq<string>, rest: string)
    decreases |frames|
  {
    if frames == [] then s == rest && forall i :: !BlankAt(s, i)
    else BeginsWith(s, frames[0]) && Framed(s[|frames[0]| + 2..], frames[1..], rest)
  }

  lemma FrameEnds(s: string, frame: string)
    requires frame + [LF, LF] <= s
    ensures BlankAt(s, |frame|) && frame == s[..|frame|]
  {
    assert (frame + [LF, LF])[|frame|] == LF && (frame + [LF, LF])[|frame| + 1] == LF;
  }

  lemma BlankFollows(s: string, i: nat)
    requires BlankAt(s, i)
    ensures s[..i] + [LF, LF] <= s
  {
    assert s[..i] + [LF, LF] == s[..i + 2];
  }

  lemma FirstFrame(s: string, i: nat, frame: string)
    requires i < |s| && BlankAt(s, i) && forall j :: 0 <= j < i ==> !BlankAt(s, j)
    ensures BeginsWith(s, frame) <==> frame == s[..i]
  {
    if frame == s[..i] {
      BlankFollows(s, i);
    } else if frame + [LF, LF] <= s {
      FrameEnds(s, frame);
      assert |frame| != i;
      assert |frame| > i ==> BlankAt(s, i);
    }
  }

  lemma NoFrame(s: string, frame: string)
    requires forall i :: !BlankAt(s, i)
    ensures !BeginsWith(s, frame)
  {
    if frame + [LF, LF] <= s {
      FrameEnds(s, frame);
    }
  }

  lemma {:induction false} CutExactly(s: string, frames: seq<string>, rest: string)
    ensures Cut(s) == Frames(frames, rest) <==> Framed(s, frames, rest)
    decreases |s|
  {
    var i := FirstBlank(s);
    if i == |s| {
      NoBlank(s);
      if frames != [] {
        NoFrame(s, frames[0]);
      }
    } else {
      CutAt(s, i, s[..i], s[i + 2..]);
      if frames != [] {
        FirstFrame(s, i, frames[0]);
        CutExactly(s[i + 2..], frames[1..], rest);
        AheadOf(s[..i], Cut(s[i + 2..]), frames, rest);
      }
    }
  }

  lemma NoBlank(s: string)
    requires FirstBlank(s) == |s|
    ensures Cut(s) == Frames([], s) && forall i :: !BlankAt(s, i)
  {
  }

  lemma AheadOf(frame: string, more: Frames, frames: seq<string>, rest: string)
    requires frames != []
    ensures Ahead(frame, more) == Frames(frames, rest) <==> frame == frames[0] && more == Frames(frames[1..], rest)
  {
    assert frames == [frames[0]] + frames[1..];
    assert ([frame] + more.frames)[1..] == more.frames;
  }

  /* ---- normalising, by positions ---- */

  /** The beginning of a text without the CR of each CR LF. */
  function WithoutCr(s: string, n: nat): string
    requires n <= |s|
  {
    if n == 0 then ""
    else WithoutCr(s, n - 1) + if n < |s| && s[n - 1] == CR && s[n] == LF then "" else [s[n - 1]]
  }

  lemma {:induction false} WithoutCrAfter(s: string, k: nat, n: nat)
    requires k + n <= |s|
    ensures WithoutCr(s, k + n) == WithoutCr(s, k) + WithoutCr(s[k..], n)
  {
    if n > 0 {
      WithoutCrAfter(s, k, n - 1);
    }
  }

  lemma FirstTwo(s: string)
    requires |s| >= 2 && s[0] == CR && s[1] == LF
    ensures WithoutCr(s, 2) == [LF]
  {
    assert WithoutCr(s, 1) == WithoutCr(s, 0) + "";
    assert s[1] != CR;
  }

  lemma FirstOne(s: string)
    requires s != "" && !(|s| >= 2 && s[0] == CR && s[1] == LF)
    ensures WithoutCr(s, 1) == [s[0]]
  {
    assert WithoutCr(s, 1) == WithoutCr(s, 0) + [s[0]];
  }

  /** Normalising drops the CR of each CR LF and nothing else. */
  lemma {:induction false} NormalizeExactly(s: string)
    ensures Normalize(s) == WithoutCr(s, |s|)
    decreases |s|
  {
    if |s| >= 2 && s[0] == CR && s[1] == LF {
      NormalizeExactly(s[2..]);
      FirstTwo(s);
      WithoutCrAfter(s, 2, |s| - 2);
    } else if s != "" {
      NormalizeExactly(s[1..]);
      FirstOne(s);
      WithoutCrAfter(s, 1, |s| - 1);
    }
  }
}
