/** A text with CR CR LF whose events depend on where it is cut. */
module EventStreamCuts {

  // Read in one piece, "data: v" CR CR LF CR LF is one frame whose data ends in CR. Cut
  // after the first LF, the kept-back rest ends in CR LF, is normalised once more with
  // the next chunk, and the same frame comes out without the CR.

  import opened TextLines
  import opened EventStream
  import opened EventStreamChunks
  import opened EventStreamRoundTrip

  function DataLine(v: string): string {
    "data: " + v
  }

  lemma DataFrame(v: string)
    requires Free(v, LF)
    ensures ReadFrame(DataLine(v)) == [ServerEvent("message", "", v)]
  {
    var line := DataLine(v);
    FirstLineEnd(line, "");
    assert line == "data" + ": " + v;
    ReadPrinted(FRESH, "data", v);
    assert Lines(line) == [line] && [line][1..] == [];
    assert ReadLines(FRESH, [line]) == ReadLine(FRESH, line) == FRESH.(data := [v]);
  }

  lemma Blankless(h: string)
    requires Free(h, LF)
    ensures forall i :: !BlankAt(h, i)
  {
  }

  /** One frame and nothing after it. */
  lemma OneFrame(h: string)
    requires Free(h, LF) && h != ""
    ensures Cut(h + [LF, LF]) == Frames([h], "")
  {
    Blankless(h);
    CutFrame(h, "");
    assert h + [LF, LF] + "" == h + [LF, LF];
  }

  lemma NoFrameYet(h: string)
    requires Free(h, LF)
    ensures Cut(h + [CR, LF]) == Frames([], h + [CR, LF])
  {
    var s := h + [CR, LF];
    assert s[|h|] == CR && forall j :: 0 <= j < |h| ==> s[j] == h[j];
    assert forall i :: !BlankAt(s, i);
  }

  lemma NormalizeTail(h: string, tail: string)
    requires Free(h, CR)
    ensures Normalize(h + tail) == h + Normalize(tail)
  {
    FreeIsPlain(h);
    assert !Straddles(h, tail);
    NormalizeConcat(h, tail);
  }

  lemma Tails()
    ensures Normalize([CR, CR, LF, CR, LF]) == [CR, LF, LF]
    ensures Normalize([CR, CR, LF]) == [CR, LF]
    ensures Normalize([CR, LF, CR, LF]) == [LF, LF]
  {
    var a: string := [CR, CR, LF, CR, LF];
    var b: string := [CR, LF, CR, LF];
    var c: string := [CR, CR, LF];
    var d: string := [CR, LF];
    assert a[1..] == b && b[2..] == d && c[1..] == d && d[2..] == "";
    assert Normalize(d) == [LF];
    assert Normalize(b) == [LF] + [LF];
    assert Normalize(c) == [CR] + [LF];
    assert Normalize(a) == [CR] + ([LF] + [LF]);
  }

  lemma ReadWhole(v: string)
    requires Free(v, CR) && Free(v, LF)
    ensures Consumption(DataLine(v) + [CR, CR, LF, CR, LF]) == Consumed([ServerEvent("message", "", v + [CR])], "")
  {
    var h := DataLine(v);
    Tails();
    NormalizeTail(h, [CR, CR, LF, CR, LF]);
    assert h + [CR, LF, LF] == DataLine(v + [CR]) + [LF, LF];
    OneFrame(DataLine(v + [CR]));
    DataFrame(v + [CR]);
    OneFrameEvents(DataLine(v + [CR]), ServerEvent("message", "", v + [CR]));
  }

  lemma ReadInTwo(v: string)
    requires Free(v, CR) && Free(v, LF)
    ensures Feed("", [DataLine(v) + [CR, CR, LF], [CR, LF]]) == Consumed([ServerEvent("message", "", v)], "")
  {
    var h := DataLine(v);
    var x, y := h + [CR, CR, LF], [CR, LF];
    Tails();
    NormalizeTail(h, [CR, CR, LF]);
    NoFrameYet(h);
    var first := Cut(Normalize(x));
    assert first == Frames([], h + [CR, LF]);
    assert first.rest + y == h + [CR, LF, CR, LF];
    NormalizeTail(h, [CR, LF, CR, LF]);
    OneFrame(h);
    TwoPieces(x, y, first);
    FeedReadsFrames("", [x, y]);
    assert [] + [h] == [h];
    DataFrame(v);
    OneFrameEvents(h, ServerEvent("message", "", v));
  }

  lemma OneFrameEvents(frame: string, e: ServerEvent)
    requires ReadFrame(frame) == [e]
    ensures FrameEvents([frame]) == [e]
  {
    assert [frame][1..] == [] && FrameEvents([]) == [];
    assert FrameEvents([frame]) == [e] + [];
  }

  /** One text, two ways of cutting it, and two different events. */
  lemma EventsDependOnTheCut(v: string)
    requires Free(v, CR) && Free(v, LF)
    ensures var x, y := DataLine(v) + [CR, CR, LF], [CR, LF];
      Concat([x, y]) == x + y && Feed("", [x, y]).events != Consumption(x + y).events
  {
    var x, y := DataLine(v) + [CR, CR, LF], [CR, LF];
    ReadWhole(v);
    ReadInTwo(v);
    assert x + y == DataLine(v) + [CR, CR, LF, CR, LF];
    TwoPieces(x, y, Cut(Normalize(x)));
    assert |v + [CR]| != |v|;
  }
}
