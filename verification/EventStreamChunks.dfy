/** Chunk invariance: however a transport cuts the stream, the same events are read. */
module EventStreamChunks {

  // Reading each chunk after the kept-back rest gives the events of the whole text,
  // provided the text never holds CR CR LF. That condition is exact, for frames and for
  // a stream.

  import opened Basics
  import opened TextLines
  import opened EventStream

  /** The client's loop: each chunk is appended to the rest of the one before. */
  function Feed(rest: string, chunks: seq<string>): Consumed
    decreases |chunks|
  {
    if chunks == [] then Consumed([], rest)
    else
      var first := Consumption(rest + chunks[0]);
      var later := Feed(first.rest, chunks[1..]);
      Consumed(first.events + later.events, later.rest)
  }

  /** The same loop before the frames are read. */
  function FeedFrames(rest: string, chunks: seq<string>): Frames
    decreases |chunks|
  {
    if chunks == [] then Frames([], rest)
    else
      var first := Cut(Normalize(rest + chunks[0]));
      var later := FeedFrames(first.rest, chunks[1..]);
      Then(first, later)
  }

  function Then(first: Frames, second: Frames): Frames {
    Frames(first.frames + second.frames, second.rest)
  }

  function Concat(chunks: seq<string>): string
    decreases |chunks|
  {
    if chunks == [] then "" else chunks[0] + Concat(chunks[1..])
  }

  /** CR CR LF at position `i`. */
  ghost predicate DoubledAt(s: string, i: int) {
    0 <= i && i + 2 < |s| && s[i] == CR && s[i + 1] == CR && s[i + 2] == LF
  }

  ghost predicate HasCrCrLf(s: string) {
    exists i :: DoubledAt(s, i)
  }

  ghost predicate CrLfAt(s: string, i: int) {
    0 <= i && i + 1 < |s| && s[i] == CR && s[i + 1] == LF
  }

  ghost predicate Plain(s: string) {
    forall i :: !CrLfAt(s, i)
  }

  ghost predicate Straddles(x: string, y: string) {
    x != "" && y != "" && x[|x| - 1] == CR && y[0] == LF
  }

  /* ---- normalising ---- */

  lemma Associative(a: string, b: string, c: string)
    ensures (a + b) + c == a + (b + c)
  {
  }

  lemma {:induction false} NormalizeConcat(x: string, y: string)
    requires !Straddles(x, y)
    ensures Normalize(x + y) == Normalize(x) + Normalize(y)
    decreases |x|
  {
    if x == "" {
      assert x + y == y;
    } else if |x| >= 2 && x[0] == CR && x[1] == LF {
      NormalizeConcat(x[2..], y);
      assert (x + y)[2..] == x[2..] + y;
      Associative([LF], Normalize(x[2..]), Normalize(y));
    } else {
      NormalizeConcat(x[1..], y);
      assert (x + y)[1..] == x[1..] + y;
      assert Normalize(x + y) == [x[0]] + Normalize(x[1..] + y);
      Associative([x[0]], Normalize(x[1..]), Normalize(y));
    }
  }

  lemma {:induction false} NormalizePlain(s: string)
    requires Plain(s)
    ensures Normalize(s) == s
    decreases |s|
  {
    if s != "" {
      assert !CrLfAt(s, 0);
      forall i ensures !CrLfAt(s[1..], i) {
        assert !CrLfAt(s, i + 1);
      }
      NormalizePlain(s[1..]);
    }
  }

  lemma {:induction false} NormalizeShrinks(s: string)
    ensures |Normalize(s)| <= |s|
    decreases |s|
  {
    if s != "" {
      if |s| >= 2 && s[0] == CR && s[1] == LF {
        NormalizeShrinks(s[2..]);
      } else {
        NormalizeShrinks(s[1..]);
      }
    }
  }

  lemma {:induction false} NormalizeEnds(s: string)
    requires s != ""
    ensures Normalize(s) != ""
    ensures Normalize(s)[|Normalize(s)| - 1] == s[|s| - 1]
    decreases |s|
  {
    if |s| >= 2 && s[0] == CR && s[1] == LF {
      if |s| > 2 {
        NormalizeEnds(s[2..]);
      }
    } else if |s| > 1 {
      NormalizeEnds(s[1..]);
    }
  }

  lemma DoubledSuffix(s: string, k: nat)
    requires k <= |s| && !HasCrCrLf(s)
    ensures !HasCrCrLf(s[k..])
  {
    if HasCrCrLf(s[k..]) {
      var i :| DoubledAt(s[k..], i);
      assert DoubledAt(s, i + k);
    }
  }

  lemma DoubledPrefix(s: string, k: nat)
    requires k <= |s| && !HasCrCrLf(s)
    ensures !HasCrCrLf(s[..k])
  {
    if HasCrCrLf(s[..k]) {
      var i :| DoubledAt(s[..k], i);
      assert DoubledAt(s, i);
    }
  }

  /** One pass leaves no CR LF behind, unless a CR stood before one. */
  lemma {:induction false} NormalizedIsPlain(s: string)
    requires !HasCrCrLf(s)
    ensures Plain(Normalize(s))
    decreases |s|
  {
    if s == "" {
    } else if |s| >= 2 && s[0] == CR && s[1] == LF {
      DoubledSuffix(s, 2);
      NormalizedIsPlain(s[2..]);
      PlainCons(LF, Normalize(s[2..]));
    } else {
      DoubledSuffix(s, 1);
      NormalizedIsPlain(s[1..]);
      if s[0] == CR && |s| > 1 {
        assert !DoubledAt(s, 0);
        assert Normalize(s[1..])[0] != LF;
      }
      PlainCons(s[0], Normalize(s[1..]));
    }
  }

  lemma PlainCons(ch: char, s: string)
    requires Plain(s) && !(ch == CR && s != "" && s[0] == LF)
    ensures Plain([ch] + s)
  {
    forall i ensures !CrLfAt([ch] + s, i) {
      assert !CrLfAt(s, i - 1);
    }
  }

  lemma NormalizeCr(head: string)
    ensures Normalize(head + [CR]) == Normalize(head) + [CR]
  {
    assert [CR][1..] == "" && Normalize([CR]) == [CR];
    NormalizeConcat(head, [CR]);
  }

  lemma NormalizeCrLf(head: string, tail: string)
    ensures Normalize(head + ([CR, LF] + tail)) == Normalize(head) + ([LF] + Normalize(tail))
  {
    var t := [CR, LF] + tail;
    assert t[2..] == tail;
    assert Normalize(t) == [LF] + Normalize(tail);
    NormalizeConcat(head, t);
  }

  lemma NormalizeAgain(x: string)
    requires !HasCrCrLf(x)
    ensures Normalize(Normalize(x)) == Normalize(x)
  {
    NormalizedIsPlain(x);
    NormalizePlain(Normalize(x));
  }

  lemma NormalizedEnd(x: string, y: string)
    requires !Straddles(x, y)
    ensures !Straddles(Normalize(x), y)
  {
    if x != "" {
      NormalizeEnds(x);
    }
  }

  /** When a CR LF straddles the cut, both readings give one LF there. */
  lemma RenormalizeStraddling(head: string, tail: string)
    requires !HasCrCrLf(head)
    ensures Normalize(Normalize(head + [CR]) + ([LF] + tail)) == Normalize((head + [CR]) + ([LF] + tail))
  {
    NormalizeCr(head);
    Associative(Normalize(head), [CR], [LF] + tail);
    Associative(head, [CR], [LF] + tail);
    assert [CR] + ([LF] + tail) == [CR, LF] + tail;
    NormalizeCrLf(head, tail);
    NormalizeCrLf(Normalize(head), tail);
    NormalizeAgain(head);
  }

  /** Normalising a text whose head is already normalised changes nothing. */
  lemma Renormalize(x: string, y: string)
    requires !HasCrCrLf(x + y)
    ensures Normalize(Normalize(x) + y) == Normalize(x + y)
  {
    DoubledPrefix(x + y, |x|);
    assert (x + y)[..|x|] == x;
    if Straddles(x, y) {
      DoubledPrefix(x, |x| - 1);
      assert x == x[..|x| - 1] + [CR] && y == [LF] + y[1..];
      RenormalizeStraddling(x[..|x| - 1], y[1..]);
    } else {
      NormalizeAgain(x);
      NormalizedEnd(x, y);
      NormalizeConcat(Normalize(x), y);
      NormalizeConcat(x, y);
    }
  }

  /* ---- cutting ---- */

  lemma FirstBlankExtends(u: string, v: string)
    requires FirstBlank(u) < |u|
    ensures FirstBlank(u + v) == FirstBlank(u)
  {
    var i, j := FirstBlank(u), FirstBlank(u + v);
    assert BlankAt(u + v, i);
    assert j < i ==> (BlankAt(u + v, j) <==> BlankAt(u, j));
  }

  function Ahead(frame: string, more: Frames): Frames {
    Frames([frame] + more.frames, more.rest)
  }

  lemma CutAt(s: string, i: nat, frame: string, tail: string)
    requires i == FirstBlank(s) && i < |s| && frame == s[..i] && tail == s[i + 2..]
    ensures Cut(s) == Ahead(frame, Cut(tail))
  {
  }

  lemma SliceConcat(u: string, v: string, i: nat)
    requires i + 2 <= |u|
    ensures (u + v)[..i] == u[..i] && (u + v)[i + 2..] == u[i + 2..] + v
  {
  }

  lemma AheadThen(frame: string, inner: Frames, more: Frames)
    ensures Ahead(frame, Then(inner, more)) == Then(Ahead(frame, inner), more)
  {
    assert [frame] + (inner.frames + more.frames) == ([frame] + inner.frames) + more.frames;
  }

  /** Cutting is greedy from the left: more text only continues from the rest. */
  lemma {:induction false} CutConcat(u: string, v: string, cut: Frames, more: Frames)
    requires cut == Cut(u) && more == Cut(cut.rest + v)
    ensures Cut(u + v) == Then(cut, more)
    decreases |u|
  {
    var i := FirstBlank(u);
    if i == |u| {
      assert [] + more.frames == more.frames;
    } else {
      var frame, tail := u[..i], u[i + 2..];
      var inner := Cut(tail);
      CutAt(u, i, frame, tail);
      CutConcat(tail, v, inner, more);
      FirstBlankExtends(u, v);
      SliceConcat(u, v, i);
      CutAt(u + v, i, frame, tail + v);
      AheadThen(frame, inner, more);
    }
  }

  /** A frame and its blank line, put in front of any text, are cut off again. */
  lemma FrameAhead(u: string, i: nat, more: string)
    requires i == FirstBlank(u) && i < |u|
    ensures Cut(u[..i + 2] + more) == Ahead(u[..i], Cut(more))
  {
    var blank := u[..i + 2];
    BlankAtEnd(u, i);
    FirstBlankExtends(blank, more);
    SliceConcat(blank, more, i);
    assert blank[i + 2..] == "" && blank[..i] == u[..i] && "" + more == more;
    CutAt(blank + more, i, u[..i], more);
  }

  /** The text up to the last blank line that ends a frame. */
  function Head(u: string): string
    decreases |u|
  {
    var i := FirstBlank(u);
    if i == |u| then "" else u[..i + 2] + Head(u[i + 2..])
  }

  lemma {:induction false} HeadAndRest(u: string, cut: Frames)
    requires cut == Cut(u)
    ensures u == Head(u) + cut.rest
    decreases |u|
  {
    var i := FirstBlank(u);
    if i < |u| {
      HeadAndRest(u[i + 2..], Cut(u[i + 2..]));
      assert u == u[..i + 2] + u[i + 2..];
    }
  }

  lemma {:induction false} HeadEnds(u: string)
    ensures Head(u) != "" ==> Head(u)[|Head(u)| - 1] == LF
    decreases |u|
  {
    var i := FirstBlank(u);
    if i < |u| {
      HeadEnds(u[i + 2..]);
    }
  }

  lemma {:induction false} HeadFrames(u: string, cut: Frames)
    requires cut == Cut(u)
    ensures Cut(Head(u)) == Frames(cut.frames, "")
    decreases |u|
  {
    var i := FirstBlank(u);
    if i < |u| {
      HeadFrames(u[i + 2..], Cut(u[i + 2..]));
      FrameAhead(u, i, Head(u[i + 2..]));
    }
  }

  lemma BlankAtEnd(u: string, i: nat)
    requires i == FirstBlank(u) && i < |u|
    ensures FirstBlank(u[..i + 2]) == i
  {
    var j := FirstBlank(u[..i + 2]);
    assert BlankAt(u[..i + 2], i);
    assert j < i ==> (BlankAt(u[..i + 2], j) <==> BlankAt(u, j));
  }

  /* ---- chunk invariance ---- */

  /** Normalising leaves a plain head alone when it ends in LF or is empty. */
  lemma HeadStays(head: string, rest: string, z: string)
    requires Plain(head + rest) && (head != "" ==> head[|head| - 1] == LF)
    ensures Normalize(head + z) == head + Normalize(z)
  {
    forall i ensures !CrLfAt(head, i) {
      assert !CrLfAt(head + rest, i);
    }
    NormalizePlain(head);
    NormalizeConcat(head, z);
  }

  /** More text after a plain text is read from the rest. */
  lemma MoreText(u: string, y: string, first: Frames)
    requires Plain(u) && first == Cut(u)
    ensures Cut(Normalize(u + y)) == Then(first, Cut(Normalize(first.rest + y)))
  {
    var head, z := Head(u), first.rest + y;
    HeadAndRest(u, first);
    HeadEnds(u);
    HeadStays(head, first.rest, z);
    Associative(head, first.rest, y);
    HeadFrames(u, first);
    AfterHead(head, Normalize(z), first.frames);
  }

  lemma AfterHead(head: string, tail: string, frames: seq<string>)
    requires Cut(head) == Frames(frames, "")
    ensures Cut(head + tail) == Frames(frames + Cut(tail).frames, Cut(tail).rest)
  {
    assert "" + tail == tail;
    CutConcat(head, tail, Frames(frames, ""), Cut(tail));
  }

  lemma TwoChunks(x: string, y: string, first: Frames)
    requires !HasCrCrLf(x + y) && first == Cut(Normalize(x))
    ensures Cut(Normalize(x + y)) == Then(first, Cut(Normalize(first.rest + y)))
  {
    DoubledPrefix(x + y, |x|);
    assert (x + y)[..|x|] == x;
    NormalizedIsPlain(x);
    Renormalize(x, y);
    MoreText(Normalize(x), y, first);
  }

  lemma {:induction false} ManyChunks(read: string, chunks: seq<string>, first: Frames)
    requires !HasCrCrLf(read + Concat(chunks)) && first == Cut(Normalize(read))
    ensures Cut(Normalize(read + Concat(chunks))) == Then(first, FeedFrames(first.rest, chunks))
    decreases |chunks|
  {
    if chunks == [] {
      assert read + "" == read && first.frames + [] == first.frames;
    } else {
      var grown := read + chunks[0];
      assert grown + Concat(chunks[1..]) == read + Concat(chunks);
      DoubledPrefix(read + Concat(chunks), |grown|);
      assert (read + Concat(chunks))[..|grown|] == grown;
      TwoChunks(read, chunks[0], first);
      var second := Cut(Normalize(first.rest + chunks[0]));
      ManyChunks(grown, chunks[1..], Then(first, second));
      ThenThen(first, second, FeedFrames(second.rest, chunks[1..]));
    }
  }

  lemma ThenThen(a: Frames, b: Frames, c: Frames)
    ensures Then(a, Then(b, c)) == Then(Then(a, b), c)
  {
    assert (a.frames + b.frames) + c.frames == a.frames + (b.frames + c.frames);
  }

  /** All of a text's chunks, from a fresh start. */
  lemma FromTheStart(chunks: seq<string>)
    requires !HasCrCrLf(Concat(chunks))
    ensures FeedFrames("", chunks) == Cut(Normalize(Concat(chunks)))
  {
    assert "" + Concat(chunks) == Concat(chunks);
    assert Cut(Normalize("")) == Frames([], "");
    ManyChunks("", chunks, Frames([], ""));
    assert [] + FeedFrames("", chunks).frames == FeedFrames("", chunks).frames;
  }

  /** Reading frames chunk by chunk is reading them after they were all collected. */
  lemma {:induction false} FeedReadsFrames(rest: string, chunks: seq<string>)
    ensures Feed(rest, chunks) == Consumed(FrameEvents(FeedFrames(rest, chunks).frames), FeedFrames(rest, chunks).rest)
    decreases |chunks|
  {
    if chunks != [] {
      var first := Cut(Normalize(rest + chunks[0]));
      FeedReadsFrames(first.rest, chunks[1..]);
      FlatMapConcat(ReadFrame, first.frames, FeedFrames(first.rest, chunks[1..]).frames);
    }
  }

  /** However a text without CR CR LF is cut, the events and the final rest are those of the whole text. */
  lemma ChunkInvariance(chunks: seq<string>)
    requires !HasCrCrLf(Concat(chunks))
    ensures Feed("", chunks) == Consumption(Concat(chunks))
  {
    FromTheStart(chunks);
    FeedReadsFrames("", chunks);
  }

  /* ---- the condition is exact ---- */

  function Weight(frames: seq<string>): nat {
    if frames == [] then 0 else |frames[0]| + 2 + Weight(frames[1..])
  }

  lemma {:induction false} WeightConcat(a: seq<string>, b: seq<string>)
    ensures Weight(a + b) == Weight(a) + Weight(b)
  {
    if a == [] {
      assert a + b == b;
    } else {
      WeightConcat(a[1..], b);
      assert (a + b)[1..] == a[1..] + b;
    }
  }

  lemma {:induction false} CutWeight(s: string)
    ensures |s| == Weight(Cut(s).frames) + |Cut(s).rest|
    decreases |s|
  {
    var i := FirstBlank(s);
    if i < |s| {
      CutWeight(s[i + 2..]);
      assert Cut(s).frames[1..] == Cut(s[i + 2..]).frames;
    }
  }

  /** The rest after CR CR LF keeps a CR LF of its own. */
  lemma RestAfterDoubled(head: string, first: Frames)
    requires first == Cut(Normalize(head + [CR, CR, LF]))
    ensures |first.rest| >= 2 && first.rest[|first.rest| - 2..] == [CR, LF]
  {
    NormalizeConcat(head, [CR]);
    assert head + [CR, CR, LF] == (head + [CR]) + [CR, LF];
    NormalizeConcat(head + [CR], [CR, LF]);
    assert [CR, LF][2..] == "" && Normalize([CR, LF]) == [LF];
    assert [CR][1..] == "" && Normalize([CR]) == [CR];
    var v := Normalize(head);
    assert Normalize(head + [CR, CR, LF]) == v + [CR, LF];
    var rest := Cut(v).rest;
    CutRestHasNoBlank(v);
    BlankBeyond(rest, [CR, LF]);
    CutConcat(v, [CR, LF], Cut(v), Frames([], rest + [CR, LF]));
  }

  /** Normalising a text that ends in CR LF shortens it, whatever follows. */
  lemma ShorterAgain(rest: string, y: string)
    requires |rest| >= 2 && rest[|rest| - 2..] == [CR, LF]
    ensures |Normalize(rest + y)| < |rest| + |Normalize(y)|
  {
    var head := rest[..|rest| - 2];
    assert rest == head + [CR, LF];
    NormalizeConcat(rest, y);
    NormalizeConcat(head, [CR, LF]);
    NormalizeShrinks(head);
    assert [CR, LF][2..] == "" && Normalize([CR, LF]) == [LF];
  }

  /** A cut right after CR CR LF loses a CR. */
  lemma CutAfterDoubled(x: string, y: string, first: Frames)
    requires |x| >= 3 && DoubledAt(x, |x| - 3) && first == Cut(Normalize(x))
    ensures Cut(Normalize(x + y)) != Then(first, Cut(Normalize(first.rest + y)))
  {
    assert x == x[..|x| - 3] + [CR, CR, LF];
    RestAfterDoubled(x[..|x| - 3], first);
    ShorterAgain(first.rest, y);
    NormalizeConcat(x, y);
    CutWeight(Normalize(x));
    CutWeight(Normalize(x + y));
    var second := Cut(Normalize(first.rest + y));
    CutWeight(Normalize(first.rest + y));
    WeightConcat(first.frames, second.frames);
  }

  lemma BlankBeyond(rest: string, tail: string)
    requires FirstBlank(rest) == |rest| && tail == [CR, LF]
    ensures FirstBlank(rest + tail) == |rest + tail|
  {
    var i := FirstBlank(rest + tail);
    assert i + 1 < |rest| ==> (BlankAt(rest + tail, i) <==> BlankAt(rest, i));
  }

  lemma {:induction false} CutRestHasNoBlank(s: string)
    ensures FirstBlank(Cut(s).rest) == |Cut(s).rest|
    decreases |s|
  {
    var i := FirstBlank(s);
    if i < |s| {
      CutRestHasNoBlank(s[i + 2..]);
    }
  }

  /** Frames and rest survive every way of cutting a text exactly when it holds no CR CR LF. */
  lemma FramesInvariantExactly(t: string)
    ensures !HasCrCrLf(t) <==>
      forall chunks :: Concat(chunks) == t ==> FeedFrames("", chunks) == Cut(Normalize(t))
  {
    if !HasCrCrLf(t) {
      forall chunks | Concat(chunks) == t ensures FeedFrames("", chunks) == Cut(Normalize(t)) {
        FromTheStart(chunks);
      }
    } else {
      var i :| DoubledAt(t, i);
      var x, y := t[..i + 3], t[i + 3..];
      assert t == x + y && DoubledAt(x, |x| - 3);
      CutAfterDoubled(x, y, Cut(Normalize(x)));
      TwoPieces(x, y, Cut(Normalize(x)));
      assert FeedFrames("", [x, y]) != Cut(Normalize(t));
    }
  }

  lemma TwoPieces(x: string, y: string, first: Frames)
    requires first == Cut(Normalize(x))
    ensures Concat([x, y]) == x + y
    ensures FeedFrames("", [x, y]) == Then(first, Cut(Normalize(first.rest + y)))
  {
    var second := Cut(Normalize(first.rest + y));
    assert [x, y][1..] == [y] && [y][1..] == [];
    assert Concat([y]) == y + "" == y;
    assert "" + x == x;
    assert FeedFrames(first.rest, [y]) == Then(second, FeedFrames(second.rest, [])) == second by {
      assert second.frames + [] == second.frames;
    }
  }

  /* ---- the condition is exact for what the reader returns ---- */

  /** Read in one piece a text that ends in CR CR LF leaves one rest, and after one empty chunk a shorter one. */
  lemma RestShrinks(x: string)
    requires |x| >= 3 && DoubledAt(x, |x| - 3)
    ensures Concat([x, ""]) == x && Feed("", [x, ""]).rest != Consumption(x).rest
  {
    var first := Cut(Normalize(x));
    assert x == x[..|x| - 3] + [CR, CR, LF];
    RestAfterDoubled(x[..|x| - 3], first);
    ShorterAgain(first.rest, "");
    CutWeight(Normalize(first.rest + ""));
    assert x + "" == x;
    TwoPieces(x, "", first);
    FeedReadsFrames("", [x, ""]);
  }

  /** Events and rest of every text read so far are those of reading it in one piece. */
  ghost predicate Steady(t: string, n: nat)
    requires n <= |t|
  {
    forall chunks :: Concat(chunks) == t[..n] ==> Feed("", chunks) == Consumption(t[..n])
  }

  /** Along a stream, events and rest never depend on the cuts exactly when the stream holds no CR CR LF. */
  lemma StreamInvariantExactly(t: string)
    ensures !HasCrCrLf(t) <==> forall n: nat :: n <= |t| ==> Steady(t, n)
  {
    if !HasCrCrLf(t) {
      forall n: nat, chunks | n <= |t| && Concat(chunks) == t[..n] ensures Feed("", chunks) == Consumption(t[..n]) {
        DoubledPrefix(t, n);
        ChunkInvariance(chunks);
      }
    } else {
      var i :| DoubledAt(t, i);
      var n: nat := i + 3;
      assert DoubledAt(t[..n], |t[..n]| - 3);
      RestShrinks(t[..n]);
      assert !Steady(t, n);
    }
  }
}
