/** A markdown text, from source to blocks: every line is kept, in order, in the block it belongs to. */
module Markdown {
  import opened Basics
  import opened Whitespace
  import opened TextLines
  import opened MarkdownScan
  import opened MarkdownScanLaws
  import opened MarkdownLines
  import opened MarkdownBlocks
  import MarkdownInline
  import MarkdownRoundTrip

  function ReadInline(): string -> seq<Inline> {
    (text: string) => Scan(MarkdownInline.Rules(), text, [])
  }

  function SourceLines(source: string): seq<string> {
    Lines(Normalize(source))
  }

  lemma RulesAreSane()
    ensures Sane(MarkdownRules()) && TrimsProse(MarkdownRules())
  {
  }

  /* ---- every line is kept ---- */

  /** What a block shows of one mark. */
  function MarkShown(m: Mark): seq<Mark> {
    if m.Open? || m.Close? || m.Gap? then [] else [m]
  }

  /** What a block shows of its run: the mark that opens a fence is not shown. */
  function Shown(run: seq<Mark>): seq<Mark> {
    if run != [] && run[0].Open? then run[1..] else run
  }

  /** The lines of a text that its blocks must show, as what they are: inside a fence every line; outside,
      each line that is not blank. */
  function Kept(rules: LineRules, lines: seq<string>, inside: bool): seq<Mark>
    decreases |lines|
  {
    if lines == [] then []
    else
      (if rules.fence(lines[0]) then []
       else if inside then [Verbatim(lines[0])]
       else if rules.classify(lines[0]).Gap? then []
       else [rules.classify(lines[0])])
      + Kept(rules, lines[1..], inside != rules.fence(lines[0]))
  }

  lemma {:induction false} KeptOfMarks(rules: LineRules, lines: seq<string>, inside: bool)
    requires Sane(rules)
    ensures FlatMap(MarkShown, Marks(rules, lines, inside)) == Kept(rules, lines, inside)
    decreases |lines|
  {
    if lines == [] {
      assert FlatMap(MarkShown, [Close]) == [];
    } else {
      assert OutsideFence(rules.classify(lines[0]));
      KeptOfMarks(rules, lines[1..], inside != rules.fence(lines[0]));
    }
  }

  lemma {:induction false} AllShown(run: seq<Mark>)
    requires forall i :: 0 <= i < |run| ==> !Unseen(run[i]) && !run[i].Open?
    ensures FlatMap(MarkShown, run) == run
    decreases |run|
  {
    if run != [] {
      AllShown(run[1..]);
      assert run == [run[0]] + run[1..];
    }
  }

  lemma ShownOfRun(run: seq<Mark>)
    requires IsRun(run)
    ensures FlatMap(MarkShown, run) == Shown(run)
  {
    forall i | 0 < i < |run| ensures !Unseen(run[i]) && !run[i].Open? {
      assert ContinuesAt(run, i);
    }
    if run[0].Open? {
      AllShown(run[1..]);
    } else {
      AllShown(run);
    }
  }

  lemma {:induction false} LongestIsRun(a: Mark, marks: seq<Mark>)
    requires !Unseen(a)
    ensures IsRun([a] + marks[..RunLength(a, marks)])
    decreases |marks|
  {
    var n := RunLength(a, marks);
    var run := [a] + marks[..n];
    if n > 0 {
      LongestIsRun(marks[0], marks[1..]);
      var tail := [marks[0]] + marks[1..][..n - 1];
      assert run == [a] + tail;
      forall i | 0 < i < |run| ensures ContinuesAt(run, i) {
        assert i > 1 ==> ContinuesAt(tail, i - 1);
      }
    }
  }

  lemma {:induction false} GroupsAreRuns(marks: seq<Mark>)
    ensures forall g :: g in Groups(marks) ==> IsRun(g)
    ensures FlatMap(Shown, Groups(marks)) == FlatMap(MarkShown, marks)
    decreases |marks|
  {
    if marks != [] {
      if Unseen(marks[0]) {
        GroupsAreRuns(marks[1..]);
      } else {
        var n := 1 + RunLength(marks[0], marks[1..]);
        LongestIsRun(marks[0], marks[1..]);
        assert marks[..n] == [marks[0]] + marks[1..][..n - 1];
        ShownOfRun(marks[..n]);
        GroupsAreRuns(marks[n..]);
        FlatMapConcat(MarkShown, marks[..n], marks[n..]);
        assert marks[..n] + marks[n..] == marks;
      }
    }
  }

  /** Every line inside a fence and every line outside one that is not blank is shown once, in the
      order of the text, and nothing else is. */
  lemma BlocksKeepLines(rules: LineRules, lines: seq<string>)
    requires Sane(rules)
    ensures FlatMap(Shown, Groups(Marks(rules, lines, false))) == Kept(rules, lines, false)
  {
    GroupsAreRuns(Marks(rules, lines, false));
    KeptOfMarks(rules, lines, false);
  }

  /* ---- which lines share a block ---- */

  lemma {:induction false} RunEnds(a: Mark, marks: seq<Mark>)
    ensures StartsApart([a] + marks[..RunLength(a, marks)], marks[RunLength(a, marks)..])
    decreases |marks|
  {
    var n := RunLength(a, marks);
    if n > 0 {
      RunEnds(marks[0], marks[1..]);
      var tail := [marks[0]] + marks[1..][..n - 1];
      assert [a] + marks[..n] == [a] + tail;
      assert marks[1..][n - 1..] == marks[n..];
    }
  }

  /** The first run of a text that starts with a mark of a block. */
  lemma FirstRun(marks: seq<Mark>) returns (run: seq<Mark>, rest: seq<Mark>)
    requires marks != [] && !Unseen(marks[0])
    ensures marks == run + rest && IsRun(run) && StartsApart(run, rest)
  {
    var n := RunLength(marks[0], marks[1..]);
    LongestIsRun(marks[0], marks[1..]);
    RunEnds(marks[0], marks[1..]);
    run, rest := [marks[0]] + marks[1..][..n], marks[1..][n..];
  }

  lemma JoinRuns(xs: seq<Mark>, ys: seq<Mark>)
    requires IsRun(xs) && IsRun(ys) && Continues(xs[|xs| - 1], ys[0])
    ensures IsRun(xs + ys)
  {
    var all := xs + ys;
    forall i | 0 < i < |all| ensures ContinuesAt(all, i) {
      assert i < |xs| ==> ContinuesAt(xs, i);
      assert i > |xs| ==> ContinuesAt(ys, i - |xs|);
    }
  }

  lemma GroupCount(run: seq<Mark>, rest: seq<Mark>, all: seq<Mark>)
    requires IsRun(run) && StartsApart(run, rest) && all == run + rest
    ensures |Groups(all)| == 1 + |Groups(rest)|
  {
    GroupsOfRun(run, rest);
  }

  lemma LongerRun(run: seq<Mark>, second: seq<Mark>, rest: seq<Mark>)
    requires second != [] && StartsApart(second, rest)
    ensures StartsApart(run + second, rest) && (run + second) + rest == run + (second + rest) && run + [] == run
  {
  }

  /** Two runs, the second continuing the first, are one block; apart they are two. */
  lemma JoinedRun(run: seq<Mark>, ys: seq<Mark>)
    requires IsRun(run) && ys != [] && Continues(run[|run| - 1], ys[0])
    ensures |Groups(run + ys)| < |Groups(run)| + |Groups(ys)|
  {
    var second, rest := FirstRun(ys);
    JoinRuns(run, second);
    LongerRun(run, second, rest);
    GroupCount(run + second, rest, run + ys);
    GroupCount(second, rest, ys);
    GroupCount(run, [], run);
  }

  /** What precedes a boundary does not matter to it. */
  ghost predicate Boundary(xs: seq<Mark>, ys: seq<Mark>, whole: seq<seq<Mark>>, left: seq<seq<Mark>>,
      right: seq<seq<Mark>>)
    requires xs != [] && ys != []
  {
    if Continues(xs[|xs| - 1], ys[0]) then |whole| < |left| + |right| else whole == left + right
  }

  lemma BoundaryLater(before: seq<Mark>, xs: seq<Mark>, ys: seq<Mark>, first: seq<seq<Mark>>,
      whole: seq<seq<Mark>>, left: seq<seq<Mark>>, right: seq<seq<Mark>>)
    requires xs != [] && ys != [] && Boundary(xs, ys, whole, left, right)
    ensures before + xs != [] && Boundary(before + xs, ys, first + whole, first + left, right)
  {
    assert (before + xs)[|before + xs| - 1] == xs[|xs| - 1];
    assert first + (left + right) == first + left + right;
  }

  lemma BoundaryOfRun(run: seq<Mark>, ys: seq<Mark>)
    requires IsRun(run) && ys != []
    ensures Boundary(run, ys, Groups(run + ys), Groups(run), Groups(ys))
  {
    if Continues(run[|run| - 1], ys[0]) {
      JoinedRun(run, ys);
    } else {
      GroupsOfRun(run, ys);
      GroupsOfRun(run, []);
      assert run + [] == run;
    }
  }

  ghost predicate BoundaryHolds(xs: seq<Mark>, ys: seq<Mark>)
    requires xs != [] && ys != []
  {
    Boundary(xs, ys, Groups(xs + ys), Groups(xs), Groups(ys))
  }

  lemma BoundaryAfterUnseen(x: Mark, tail: seq<Mark>, ys: seq<Mark>)
    requires Unseen(x) && ys != [] && (tail != [] ==> BoundaryHolds(tail, ys))
    ensures BoundaryHolds([x] + tail, ys)
  {
    SkipUnseen(x, tail);
    SkipUnseen(x, tail + ys);
    assert [x] + tail + ys == [x] + (tail + ys);
    if tail != [] {
      BoundaryLater([x], tail, ys, [], Groups(tail + ys), Groups(tail), Groups(ys));
    } else {
      assert tail + ys == ys;
    }
  }

  lemma BoundaryAfterRun(run: seq<Mark>, tail: seq<Mark>, ys: seq<Mark>)
    requires IsRun(run) && StartsApart(run, tail) && ys != [] && (tail != [] ==> BoundaryHolds(tail, ys))
    ensures BoundaryHolds(run + tail, ys)
  {
    if tail != [] {
      assert run + tail + ys == run + (tail + ys);
      assert (tail + ys)[0] == tail[0];
      GroupsOfRun(run, tail);
      GroupsOfRun(run, tail + ys);
      BoundaryLater(run, tail, ys, [run], Groups(tail + ys), Groups(tail), Groups(ys));
    } else {
      assert run + tail == run;
      BoundaryOfRun(run, ys);
    }
  }

  lemma {:induction false} GroupsAtBoundary(xs: seq<Mark>, ys: seq<Mark>)
    requires xs != [] && ys != []
    ensures BoundaryHolds(xs, ys)
    decreases |xs|
  {
    if Unseen(xs[0]) {
      if xs[1..] != [] {
        GroupsAtBoundary(xs[1..], ys);
      }
      assert xs == [xs[0]] + xs[1..];
      BoundaryAfterUnseen(xs[0], xs[1..], ys);
    } else {
      var run, tail := FirstRun(xs);
      if tail != [] {
        GroupsAtBoundary(tail, ys);
      }
      BoundaryAfterRun(run, tail, ys);
    }
  }

  /** A block ends between two lines exactly when the second does not continue the first: another
      kind of line, another marker, a blank line or a fence. */
  lemma BoundaryExactly(xs: seq<Mark>, ys: seq<Mark>)
    requires xs != [] && ys != []
    ensures Groups(xs + ys) == Groups(xs) + Groups(ys) <==> !Continues(xs[|xs| - 1], ys[0])
  {
    GroupsAtBoundary(xs, ys);
  }

  /* ---- the text of a paragraph ---- */

  lemma {:induction false} JoinOfTrimmed(lines: seq<string>)
    requires lines != [] && forall i :: 0 <= i < |lines| ==> lines[i] != "" && Trimmed(lines[i])
    ensures JoinLines(lines) != "" && Trimmed(JoinLines(lines))
    ensures JoinLines(lines)[0] == lines[0][0]
    decreases |lines|
  {
    if |lines| > 1 {
      JoinOfTrimmed(lines[1..]);
      var rest := JoinLines(lines[1..]);
      var all := lines[0] + [LF] + rest;
      assert all[|all| - 1] == rest[|rest| - 1];
    }
  }

  /** The final trim of a paragraph removes nothing from its joined lines. */
  lemma NothingTrimmed(lines: seq<string>)
    requires lines != [] && forall i :: 0 <= i < |lines| ==> lines[i] != "" && Trimmed(lines[i])
    ensures Trim(JoinLines(lines)) == JoinLines(lines)
  {
    JoinOfTrimmed(lines);
    TrimIsTrimmed(JoinLines(lines));
  }

  /* ---- what the blocks show ---- */

  /** When a list of tokens stands for a text. */
  type Spelling = (seq<Inline>, string) -> bool

  /** The block shows these lines, and no others: a heading at its level, a fence its lines as they are,
      prose in one paragraph, and the items of one kind of list. */
  ghost predicate BlockShows(spelt: Spelling, block: Block, lines: seq<Mark>) {
    match block
    case HeadingBlock(level, text) => lines == [Heading(level, text)]
    case CodeBlock(text) => text == Join(TextsOf(lines)) && forall m :: m in lines ==> m.Verbatim?
    case ParagraphBlock(inline) =>
      lines != [] && spelt(inline, JoinLines(TextsOf(lines))) && forall m :: m in lines ==> m.Prose?
    case ListBlock(ordered, items) =>
      lines != [] && |items| == |lines|
      && forall j :: 0 <= j < |items| ==>
           lines[j].Item? && lines[j].ordered == ordered && spelt(items[j], lines[j].text)
  }

  /** The blocks show these lines: the first block the first few, the others the rest. */
  ghost predicate BlocksShow(spelt: Spelling, blocks: seq<Block>, lines: seq<Mark>)
    decreases |blocks|
  {
    if blocks == [] then lines == []
    else exists n: nat :: ShowsFirst(spelt, blocks, lines, n) && BlocksShow(spelt, blocks[1..], lines[n..])
  }

  ghost predicate ShowsFirst(spelt: Spelling, blocks: seq<Block>, lines: seq<Mark>, n: nat)
    requires blocks != []
  {
    n <= |lines| && BlockShows(spelt, blocks[0], lines[..n])
  }

  ghost predicate ReadsAs(read: string -> seq<Inline>, spelt: Spelling) {
    forall text {:trigger read(text)} :: spelt(read(text), text)
  }

  ghost predicate ProseIsTrimmed(marks: seq<Mark>) {
    forall m :: m in marks && m.Prose? ==> m.text != "" && Trimmed(m.text)
  }

  ghost predicate TrimsProse(rules: LineRules) {
    forall line :: rules.classify(line).Prose? ==> rules.classify(line).text != "" && Trimmed(rules.classify(line).text)
  }

  lemma {:induction false} MarksAreTrimmed(rules: LineRules, lines: seq<string>, inside: bool)
    requires TrimsProse(rules)
    ensures ProseIsTrimmed(Marks(rules, lines, inside))
    decreases |lines|
  {
    if lines != [] {
      MarksAreTrimmed(rules, lines[1..], inside != rules.fence(lines[0]));
    }
  }

  lemma {:induction false} GroupsAreTrimmed(marks: seq<Mark>)
    requires ProseIsTrimmed(marks)
    ensures forall g :: g in Groups(marks) ==> ProseIsTrimmed(g)
    decreases |marks|
  {
    if marks != [] {
      if Unseen(marks[0]) {
        GroupsAreTrimmed(marks[1..]);
      } else {
        GroupsAreTrimmed(marks[1 + RunLength(marks[0], marks[1..])..]);
      }
    }
  }

  /** All marks of a run are of the kind of the first. */
  lemma {:induction false} RunIsAlike(run: seq<Mark>, i: nat)
    requires IsRun(run) && i < |run|
    ensures run[0].Prose? ==> run[i].Prose?
    ensures run[0].Item? ==> run[i].Item? && run[i].ordered == run[0].ordered
    ensures run[0].Open? || run[0].Verbatim? ==> i == 0 || run[i].Verbatim?
    ensures run[0].Heading? ==> i == 0
  {
    if i > 0 {
      RunIsAlike(run, i - 1);
      assert ContinuesAt(run, i);
    }
  }

  lemma ProseTexts(run: seq<Mark>)
    requires IsRun(run) && run[0].Prose? && ProseIsTrimmed(run)
    ensures forall i :: 0 <= i < |Contents(run)| ==> Contents(run)[i] != "" && Trimmed(Contents(run)[i])
    ensures Contents(run) != []
  {
    forall i | 0 <= i < |run| ensures TextOf(run[i]) != "" && Trimmed(TextOf(run[i])) {
      RunIsAlike(run, i);
      assert run[i] in run;
    }
  }

  lemma ParagraphShows(read: string -> seq<Inline>, spelt: Spelling, run: seq<Mark>)
    requires ReadsAs(read, spelt) && IsRun(run) && run[0].Prose? && ProseIsTrimmed(run)
    ensures BlockShows(spelt, Render(read, run), run)
  {
    ProseTexts(run);
    NothingTrimmed(Contents(run));
    forall i | 0 <= i < |run| ensures run[i].Prose? {
      RunIsAlike(run, i);
    }
  }

  lemma ListShows(read: string -> seq<Inline>, spelt: Spelling, run: seq<Mark>)
    requires ReadsAs(read, spelt) && IsRun(run) && run[0].Item?
    ensures BlockShows(spelt, Render(read, run), run)
  {
    forall i | 0 <= i < |run| ensures run[i].Item? && run[i].ordered == run[0].ordered {
      RunIsAlike(run, i);
    }
  }

  lemma HeadingShows(read: string -> seq<Inline>, spelt: Spelling, run: seq<Mark>)
    requires IsRun(run) && run[0].Heading?
    ensures BlockShows(spelt, Render(read, run), run)
  {
    RunIsAlike(run, |run| - 1);
    assert run == [run[0]];
  }

  lemma FenceShows(read: string -> seq<Inline>, spelt: Spelling, run: seq<Mark>)
    requires IsRun(run) && (run[0].Open? || run[0].Verbatim?)
    ensures BlockShows(spelt, Render(read, run), Shown(run))
  {
    forall i | 0 < i < |run| ensures run[i].Verbatim? {
      RunIsAlike(run, i);
    }
  }

  /** The rendering of a run shows its lines. */
  lemma RunShows(read: string -> seq<Inline>, spelt: Spelling, run: seq<Mark>)
    requires ReadsAs(read, spelt) && IsRun(run) && ProseIsTrimmed(run)
    ensures BlockShows(spelt, Render(read, run), Shown(run))
  {
    match run[0]
    case Prose(_) => ParagraphShows(read, spelt, run);
    case Item(_, _) => ListShows(read, spelt, run);
    case Heading(_, _) => HeadingShows(read, spelt, run);
    case _ => FenceShows(read, spelt, run);
  }

  lemma FirstShows(spelt: Spelling, blocks: seq<Block>, first: seq<Mark>, later: seq<Mark>)
    requires blocks != [] && BlockShows(spelt, blocks[0], first) && BlocksShow(spelt, blocks[1..], later)
    ensures BlocksShow(spelt, blocks, first + later)
  {
    assert (first + later)[..|first|] == first && (first + later)[|first|..] == later;
    assert ShowsFirst(spelt, blocks, first + later, |first|);
  }

  lemma {:induction false} GroupsShow(read: string -> seq<Inline>, spelt: Spelling, groups: seq<seq<Mark>>)
    requires ReadsAs(read, spelt) && Runs(groups) && forall g :: g in groups ==> IsRun(g) && ProseIsTrimmed(g)
    ensures BlocksShow(spelt, RenderAll(read, groups), FlatMap(Shown, groups))
    decreases |groups|
  {
    if groups != [] {
      RunShows(read, spelt, groups[0]);
      GroupsShow(read, spelt, groups[1..]);
      assert RenderAll(read, groups)[1..] == RenderAll(read, groups[1..]);
      FirstShows(spelt, RenderAll(read, groups), Shown(groups[0]), FlatMap(Shown, groups[1..]));
    }
  }

  /** The blocks of a text show, in order, exactly the lines that are to be kept of it. */
  lemma ParsedShows(read: string -> seq<Inline>, spelt: Spelling, rules: LineRules, lines: seq<string>,
      groups: seq<seq<Mark>>)
    requires ReadsAs(read, spelt) && Sane(rules) && TrimsProse(rules) && groups == Groups(Marks(rules, lines, false))
    ensures Runs(groups) && BlocksShow(spelt, RenderAll(read, groups), Kept(rules, lines, false))
  {
    var marks := Marks(rules, lines, false);
    MarksAreTrimmed(rules, lines, false);
    GroupsAreRuns(marks);
    GroupsAreTrimmed(marks);
    forall i | 0 <= i < |groups| ensures groups[i] != [] {
      assert IsRun(groups[i]);
    }
    GroupsShow(read, spelt, groups);
    BlocksKeepLines(rules, lines);
  }

  /** The tokens spell the text as it was written, with no two texts in a row. */
  ghost function Written(): Spelling {
    (inline: seq<Inline>, text: string) => Spells(MarkdownRoundTrip.Wrote, inline, text) && Apart(inline)
  }

  lemma InlineIsWritten()
    ensures ReadsAs(ReadInline(), Written())
  {
    forall text ensures Written()(ReadInline()(text), text) {
      MarkdownRoundTrip.InlineFaithful(text);
    }
  }

  /** The lines that the blocks of a text must show, as what they are, from the characters of the lines. */
  ghost predicate Keeps(lines: seq<string>, inside: bool, kept: seq<Mark>)
    decreases |lines|
  {
    if lines == [] then kept == []
    else if FenceLine(lines[0]) then Keeps(lines[1..], !inside, kept)
    else if !inside && IsMark(lines[0], Gap) then Keeps(lines[1..], inside, kept)
    else
      kept != [] && (if inside then kept[0] == Verbatim(lines[0]) else IsMark(lines[0], kept[0]))
      && Keeps(lines[1..], inside, kept[1..])
  }

  /** The rules tell what a line is, character by character. */
  ghost predicate TellLines(rules: LineRules) {
    (forall line :: rules.fence(line) <==> FenceLine(line))
    && forall line, m :: IsMark(line, m) <==> rules.classify(line) == m
  }

  lemma RulesTellLines()
    ensures TellLines(MarkdownRules())
  {
    var rules := MarkdownRules();
    forall line ensures rules.fence(line) <==> FenceLine(line) {
      FenceExactly(line);
    }
    forall line, m ensures IsMark(line, m) <==> rules.classify(line) == m {
      ClassifyExactly(line, m);
    }
  }

  lemma {:induction false} KeptExactly(rules: LineRules, lines: seq<string>, inside: bool, kept: seq<Mark>)
    requires TellLines(rules)
    ensures Keeps(lines, inside, kept) <==> kept == Kept(rules, lines, inside)
    decreases |lines|
  {
    if lines != [] {
      var line, rest := lines[0], lines[1..];
      if rules.fence(line) {
        KeptExactly(rules, rest, !inside, kept);
      } else if !inside && rules.classify(line) == Gap {
        KeptExactly(rules, rest, inside, kept);
      } else if kept != [] {
        KeptExactly(rules, rest, inside, kept[1..]);
        assert kept == [kept[0]] + kept[1..];
      }
    }
  }

  /** One block for each longest run of lines that belong together. Together they show, in order, every line of
      a fence as it is, and every other line that is not blank as what it is: a heading of its level, an item of
      its kind of list, or prose. */
  method ParseMarkdown(source: string) returns (blocks: seq<Block>)
    ensures Runs(Groups(Marks(MarkdownRules(), SourceLines(source), false)))
    ensures blocks == RenderAll(ReadInline(), Groups(Marks(MarkdownRules(), SourceLines(source), false)))
    ensures exists kept :: Keeps(SourceLines(source), false, kept) && BlocksShow(Written(), blocks, kept)
  {
    RulesAreSane();
    blocks := ParseBlocks(ReadInline(), MarkdownRules(), SourceLines(source));
    InlineIsWritten();
    ghost var kept := Kept(MarkdownRules(), SourceLines(source), false);
    ParsedShows(ReadInline(), Written(), MarkdownRules(), SourceLines(source),
                Groups(Marks(MarkdownRules(), SourceLines(source), false)));
    RulesTellLines();
    KeptExactly(MarkdownRules(), SourceLines(source), false, kept);
  }
}
