/**
 * Markdown blocks: runs of lines that belong together.
 *
 * The parser goes through the lines once, with three accumulators of which one
 * at most holds anything: a paragraph, a list and a fence. It works for any
 * reading of inline text and for any line rules. `Groups` says what it computes:
 * the longest runs of marks in which each continues the one before it, gaps and
 * fence ends left out. `Parsing` is what every line keeps: the blocks so far are
 * those of the finished runs, and the runs of the whole text are these and the
 * ones of what is pending and left to read.
 */
module MarkdownBlocks {
  import opened Basics
  import opened Whitespace
  import opened TextLines
  import opened MarkdownScan
  import opened MarkdownLines

  datatype Block =
    | HeadingBlock(level: nat, text: string)
    | ParagraphBlock(inline: seq<Inline>)
    | ListBlock(ordered: bool, items: seq<seq<Inline>>)
    | CodeBlock(text: string)

  /* ---- runs of marks ---- */

  /** A line that joins the block of the line before it. */
  predicate Continues(a: Mark, b: Mark) {
    || (a.Prose? && b.Prose?)
    || (a.Item? && b.Item? && a.ordered == b.ordered)
    || ((a.Open? || a.Verbatim?) && b.Verbatim?)
  }

  function RunLength(a: Mark, marks: seq<Mark>): (n: nat)
    ensures n <= |marks|
    decreases |marks|
  {
    if marks == [] || !Continues(a, marks[0]) then 0 else 1 + RunLength(marks[0], marks[1..])
  }

  /** A mark that is in no block of its own. */
  predicate Unseen(m: Mark) {
    m.Gap? || m.Close?
  }

  /** The longest runs of marks that belong together, gaps and fence ends left out. */
  function Groups(marks: seq<Mark>): seq<seq<Mark>>
    decreases |marks|
  {
    if marks == [] then []
    else if Unseen(marks[0]) then Groups(marks[1..])
    else
      var n := 1 + RunLength(marks[0], marks[1..]);
      [marks[..n]] + Groups(marks[n..])
  }

  /** Marks that make one block. */
  predicate IsRun(run: seq<Mark>) {
    && run != []
    && !Unseen(run[0])
    && forall i :: 0 < i < |run| ==> ContinuesAt(run, i)
  }

  predicate ContinuesAt(run: seq<Mark>, i: nat)
    requires 0 < i < |run|
  {
    Continues(run[i - 1], run[i])
  }

  predicate StartsApart(run: seq<Mark>, rest: seq<Mark>) {
    run != [] && rest != [] ==> !Continues(run[|run| - 1], rest[0])
  }

  lemma {:induction false} RunLengthIs(run: seq<Mark>, rest: seq<Mark>)
    requires IsRun(run) && StartsApart(run, rest)
    ensures RunLength(run[0], run[1..] + rest) == |run| - 1
    decreases |run|
  {
    if |run| == 1 {
      assert run[1..] + rest == rest;
    } else {
      var tail := run[1..];
      assert ContinuesAt(run, 1);
      assert !Unseen(tail[0]);
      forall i | 0 < i < |tail| ensures ContinuesAt(tail, i) {
        assert ContinuesAt(run, i + 1);
      }
      RunLengthIs(tail, rest);
      assert (tail + rest)[0] == tail[0] && (tail + rest)[1..] == tail[1..] + rest;
    }
  }

  function RunOf(run: seq<Mark>): seq<seq<Mark>> {
    if run == [] then [] else [run]
  }

  /** A run that what follows does not continue is a block of its own. */
  lemma GroupsOfRun(run: seq<Mark>, rest: seq<Mark>)
    requires run != [] ==> IsRun(run)
    requires StartsApart(run, rest)
    ensures Groups(run + rest) == RunOf(run) + Groups(rest)
  {
    if run == [] {
      assert run + rest == rest;
    } else {
      RunLengthIs(run, rest);
      assert (run + rest)[1..] == run[1..] + rest;
      assert (run + rest)[..|run|] == run && (run + rest)[|run|..] == rest;
    }
  }

  /* ---- rendering a run ---- */

  function TextOf(m: Mark): string {
    match m
    case Heading(_, text) => text
    case Item(text, _) => text
    case Prose(text) => text
    case Verbatim(text) => text
    case _ => ""
  }

  function TextsOf(run: seq<Mark>): seq<string> {
    seq(|run|, i requires 0 <= i < |run| => TextOf(run[i]))
  }

  /** The texts that a block shows: the mark that opens a fence has none. */
  function Contents(run: seq<Mark>): seq<string> {
    if run != [] && run[0].Open? then TextsOf(run[1..]) else TextsOf(run)
  }

  function Join(lines: seq<string>): string {
    if lines == [] then "" else JoinLines(lines)
  }

  function ReadAll(read: string -> seq<Inline>, texts: seq<string>): seq<seq<Inline>> {
    seq(|texts|, i requires 0 <= i < |texts| => read(texts[i]))
  }

  function Render(read: string -> seq<Inline>, run: seq<Mark>): Block
    requires run != []
  {
    match run[0]
    case Heading(level, text) => HeadingBlock(level, text)
    case Item(_, ordered) => ListBlock(ordered, ReadAll(read, Contents(run)))
    case Prose(_) => ParagraphBlock(read(Trim(Join(Contents(run)))))
    case _ => CodeBlock(Join(Contents(run)))
  }

  predicate Runs(groups: seq<seq<Mark>>) {
    forall i :: 0 <= i < |groups| ==> groups[i] != []
  }

  function RenderAll(read: string -> seq<Inline>, groups: seq<seq<Mark>>): seq<Block>
    requires Runs(groups)
  {
    seq(|groups|, i requires 0 <= i < |groups| => Render(read, groups[i]))
  }

  /* ---- what is pending in the parser ---- */

  function Proses(lines: seq<string>): seq<Mark> {
    seq(|lines|, i requires 0 <= i < |lines| => Prose(lines[i]))
  }

  function Items(items: seq<string>, ordered: bool): seq<Mark> {
    seq(|items|, i requires 0 <= i < |items| => Item(items[i], ordered))
  }

  function Fence(lines: seq<string>): seq<Mark> {
    [Open] + seq(|lines|, i requires 0 <= i < |lines| => Verbatim(lines[i]))
  }

  /** The parser between two lines: the blocks so far and what is read of the next one. */
  datatype State = State(blocks: seq<Block>, paragraph: seq<string>, items: seq<string>, ordered: bool,
                         fence: Option<seq<string>>)

  /** At most one of the paragraph, the list and the fence holds anything. */
  predicate OneAtATime(s: State) {
    && (s.fence.Some? ==> s.paragraph == [] && s.items == [])
    && (s.paragraph == [] || s.items == [])
  }

  /** The marks read since the last finished block. */
  function Pending(s: State): seq<Mark> {
    if s.fence.Some? then Fence(s.fence.value)
    else if s.paragraph != [] then Proses(s.paragraph)
    else Items(s.items, s.ordered)
  }

  /** Between two lines: the blocks are those of the finished groups, and the groups of the whole
      text are these and the ones of what is pending and left to read. */
  ghost predicate Parsing(read: string -> seq<Inline>, all: seq<Mark>, groups: seq<seq<Mark>>, s: State,
      rest: seq<Mark>)
  {
    && OneAtATime(s)
    && Runs(groups)
    && s.blocks == RenderAll(read, groups)
    && Groups(all) == groups + Groups(Pending(s) + rest)
  }

  lemma PendingIsRun(s: State)
    ensures Pending(s) != [] ==> IsRun(Pending(s))
  {
  }

  lemma RenderMore(read: string -> seq<Inline>, groups: seq<seq<Mark>>, more: seq<seq<Mark>>)
    requires Runs(groups) && Runs(more)
    ensures Runs(groups + more) && RenderAll(read, groups + more) == RenderAll(read, groups) + RenderAll(read, more)
  {
  }

  /** A line that does not continue what is pending ends its block. */
  lemma EndsBlock(all: seq<Mark>, groups: seq<seq<Mark>>, s: State, rest: seq<Mark>, after: seq<seq<Mark>>)
    requires Groups(all) == groups + Groups(Pending(s) + rest) && StartsApart(Pending(s), rest)
    requires after == groups + RunOf(Pending(s))
    ensures Groups(all) == after + Groups(rest)
  {
    PendingIsRun(s);
    GroupsOfRun(Pending(s), rest);
  }

  lemma SkipUnseen(mark: Mark, rest: seq<Mark>)
    requires Unseen(mark)
    ensures Groups([mark] + rest) == Groups(rest)
  {
    assert ([mark] + rest)[1..] == rest;
  }

  /* ---- the parser ---- */

  lemma ReadMore(read: string -> seq<Inline>, items: seq<string>, i: nat)
    requires i < |items|
    ensures ReadAll(read, items[..i + 1]) == ReadAll(read, items[..i]) + [read(items[i])]
  {
  }

  method ParseItems(read: string -> seq<Inline>, items: seq<string>) returns (parsed: seq<seq<Inline>>)
    ensures parsed == ReadAll(read, items)
  {
    parsed := [];
    for i := 0 to |items|
      invariant parsed == ReadAll(read, items[..i])
    {
      var tokens := read(items[i]);
      ReadMore(read, items, i);
      parsed := parsed + [tokens];
    }
    assert items[..|items|] == items;
  }

  lemma TextsOfProses(lines: seq<string>)
    ensures TextsOf(Proses(lines)) == lines
  {
  }

  lemma RenderParagraph(read: string -> seq<Inline>, lines: seq<string>)
    requires lines != []
    ensures RenderAll(read, RunOf(Proses(lines))) == [ParagraphBlock(read(Trim(JoinLines(lines))))]
  {
    TextsOfProses(lines);
    assert Contents(Proses(lines)) == lines;
  }

  method FlushParagraph(read: string -> seq<Inline>, blocks: seq<Block>, paragraph: seq<string>) returns (r: seq<Block>)
    ensures r == blocks + RenderAll(read, RunOf(Proses(paragraph)))
  {
    r := blocks;
    if paragraph != [] {
      RenderParagraph(read, paragraph);
      r := r + [ParagraphBlock(read(Trim(JoinLines(paragraph))))];
    }
  }

  method FlushList(read: string -> seq<Inline>, blocks: seq<Block>, items: seq<string>, ordered: bool)
      returns (r: seq<Block>)
    ensures r == blocks + RenderAll(read, RunOf(Items(items, ordered)))
  {
    r := blocks;
    if items != [] {
      var parsed := ParseItems(read, items);
      assert TextsOf(Items(items, ordered)) == items;
      r := r + [ListBlock(ordered, parsed)];
    }
  }

  /** Only what the class of a line outside a fence can be. */
  ghost predicate Sane(rules: LineRules) {
    forall line :: OutsideFence(rules.classify(line))
  }

  predicate OutsideFence(m: Mark) {
    !m.Verbatim? && !m.Open? && !m.Close?
  }

  /** Ends the paragraph and the list, of which one at most holds anything. */
  method FlushBoth(read: string -> seq<Inline>, s: State) returns (r: State)
    requires OneAtATime(s) && s.fence == None
    ensures r == State(s.blocks + RenderAll(read, RunOf(Pending(s))), [], [], s.ordered, None)
  {
    var blocks := FlushParagraph(read, s.blocks, s.paragraph);
    blocks := FlushList(read, blocks, s.items, s.ordered);
    r := State(blocks, [], [], s.ordered, None);
  }

  /** The fence line that opens a fence or closes one. */
  method ReadFence(read: string -> seq<Inline>, s: State, ghost all: seq<Mark>, ghost groups: seq<seq<Mark>>,
      ghost rest: seq<Mark>)
    returns (r: State, ghost after: seq<seq<Mark>>)
    requires Parsing(read, all, groups, s, [if s.fence == None then Open else Close] + rest)
    ensures r.fence.Some? == !s.fence.Some?
    ensures Parsing(read, all, after, r, rest)
  {
    ghost var mark := if s.fence == None then Open else Close;
    after := groups + RunOf(Pending(s));
    EndsBlock(all, groups, s, [mark] + rest, after);
    RenderMore(read, groups, RunOf(Pending(s)));
    if s.fence == None {
      r := FlushBoth(read, s);
      r := r.(fence := Some([]));
      assert Pending(r) == [mark];
    } else {
      r := s.(blocks := s.blocks + [CodeBlock(Join(s.fence.value))], fence := None);
      assert TextsOf(Pending(s)[1..]) == s.fence.value;
      assert Pending(r) + rest == rest;
      SkipUnseen(mark, rest);
    }
  }

  /** The block of what was pending is finished; the line starts anew or leaves nothing pending. */
  lemma Restart(read: string -> seq<Inline>, all: seq<Mark>, groups: seq<seq<Mark>>, s: State, m: Mark, rest: seq<Mark>,
      r: State)
    requires Parsing(read, all, groups, s, [m] + rest) && StartsApart(Pending(s), [m] + rest)
    requires OneAtATime(r) && r.blocks == s.blocks + RenderAll(read, RunOf(Pending(s)))
    requires Groups([m] + rest) == Groups(Pending(r) + rest)
    ensures Parsing(read, all, groups + RunOf(Pending(s)), r, rest)
  {
    EndsBlock(all, groups, s, [m] + rest, groups + RunOf(Pending(s)));
    RenderMore(read, groups, RunOf(Pending(s)));
  }

  /** The line joins what is pending. */
  lemma Extend(read: string -> seq<Inline>, all: seq<Mark>, groups: seq<seq<Mark>>, s: State, m: Mark, rest: seq<Mark>,
      r: State)
    requires Parsing(read, all, groups, s, [m] + rest)
    requires OneAtATime(r) && r.blocks == s.blocks && Pending(r) == Pending(s) + [m]
    ensures Parsing(read, all, groups, r, rest)
  {
    assert Pending(r) + rest == Pending(s) + ([m] + rest);
  }

  lemma SingleGroup(all: seq<Mark>, ended: seq<seq<Mark>>, m: Mark, rest: seq<Mark>)
    requires Groups(all) == ended + Groups([m] + rest) && m.Heading?
    ensures Groups(all) == ended + RunOf([m]) + Groups(rest)
  {
    GroupsOfRun([m], rest);
  }

  /** A heading ends what was pending and is finished at once. */
  lemma Single(read: string -> seq<Inline>, all: seq<Mark>, groups: seq<seq<Mark>>, s: State, m: Mark, rest: seq<Mark>,
      r: State, ended: seq<seq<Mark>>)
    requires Parsing(read, all, groups, s, [m] + rest) && m.Heading? && ended == groups + RunOf(Pending(s))
    requires OneAtATime(r) && Pending(r) == []
    requires r.blocks == s.blocks + RenderAll(read, RunOf(Pending(s))) + RenderAll(read, RunOf([m]))
    ensures Parsing(read, all, ended + RunOf([m]), r, rest)
  {
    EndsBlock(all, groups, s, [m] + rest, ended);
    SingleGroup(all, ended, m, rest);
    assert Pending(r) + rest == rest;
    RenderMore(read, groups, RunOf(Pending(s)));
    RenderMore(read, ended, RunOf([m]));
  }

  method ReadHeading(read: string -> seq<Inline>, level: nat, text: string, s: State,
      ghost all: seq<Mark>, ghost groups: seq<seq<Mark>>, ghost rest: seq<Mark>)
    returns (r: State, ghost after: seq<seq<Mark>>)
    requires s.fence == None && Parsing(read, all, groups, s, [Heading(level, text)] + rest)
    ensures r.fence == None && Parsing(read, all, after, r, rest)
  {
    ghost var m := Heading(level, text);
    r := FlushBoth(read, s);
    r := r.(blocks := r.blocks + [HeadingBlock(level, text)]);
    Single(read, all, groups, s, m, rest, r, groups + RunOf(Pending(s)));
    after := groups + RunOf(Pending(s)) + RunOf([m]);
  }

  method ReadGap(read: string -> seq<Inline>, s: State, ghost all: seq<Mark>, ghost groups: seq<seq<Mark>>,
      ghost rest: seq<Mark>)
    returns (r: State, ghost after: seq<seq<Mark>>)
    requires s.fence == None && Parsing(read, all, groups, s, [Gap] + rest)
    ensures r.fence == None && Parsing(read, all, after, r, rest)
  {
    r := FlushBoth(read, s);
    after := groups + RunOf(Pending(s));
    SkipUnseen(Gap, rest);
    assert Pending(r) + rest == rest;
    Restart(read, all, groups, s, Gap, rest, r);
  }

  method ReadProse(read: string -> seq<Inline>, text: string, s: State,
      ghost all: seq<Mark>, ghost groups: seq<seq<Mark>>, ghost rest: seq<Mark>)
    returns (r: State, ghost after: seq<seq<Mark>>)
    requires s.fence == None && Parsing(read, all, groups, s, [Prose(text)] + rest)
    ensures r.fence == None && Parsing(read, all, after, r, rest)
  {
    var blocks := FlushList(read, s.blocks, s.items, s.ordered);
    r := State(blocks, s.paragraph + [text], [], s.ordered, None);
    if s.paragraph == [] {
      after := groups + RunOf(Pending(s));
      assert Pending(r) == [Prose(text)];
      Restart(read, all, groups, s, Prose(text), rest, r);
    } else {
      after := groups;
      Extend(read, all, groups, s, Prose(text), rest, r);
    }
  }

  method ReadItem(read: string -> seq<Inline>, text: string, wantsOrdered: bool, s: State,
      ghost all: seq<Mark>, ghost groups: seq<seq<Mark>>, ghost rest: seq<Mark>)
    returns (r: State, ghost after: seq<seq<Mark>>)
    requires s.fence == None && Parsing(read, all, groups, s, [Item(text, wantsOrdered)] + rest)
    ensures r.fence == None && Parsing(read, all, after, r, rest)
  {
    var items := s.items;
    var blocks := FlushParagraph(read, s.blocks, s.paragraph);
    if items != [] && s.ordered != wantsOrdered {
      blocks := FlushList(read, blocks, items, s.ordered);
      items := [];
    }
    r := State(blocks, [], items + [text], wantsOrdered, None);
    if items == [] {
      after := groups + RunOf(Pending(s));
      assert Pending(r) == [Item(text, wantsOrdered)];
      Restart(read, all, groups, s, Item(text, wantsOrdered), rest, r);
    } else {
      after := groups;
      Extend(read, all, groups, s, Item(text, wantsOrdered), rest, r);
    }
  }

  method ReadVerbatim(read: string -> seq<Inline>, line: string, s: State,
      ghost all: seq<Mark>, ghost groups: seq<seq<Mark>>, ghost rest: seq<Mark>)
    returns (r: State)
    requires s.fence.Some? && Parsing(read, all, groups, s, [Verbatim(line)] + rest)
    ensures r.fence.Some? && Parsing(read, all, groups, r, rest)
  {
    r := s.(fence := Some(s.fence.value + [line]));
    Extend(read, all, groups, s, Verbatim(line), rest, r);
  }

  method ReadLine(read: string -> seq<Inline>, rules: LineRules, line: string, s: State,
      ghost all: seq<Mark>, ghost groups: seq<seq<Mark>>, ghost rest: seq<Mark>)
    returns (r: State, ghost after: seq<seq<Mark>>)
    requires Sane(rules)
    requires Parsing(read, all, groups, s, [MarkOf(rules, line, s.fence.Some?)] + rest)
    ensures r.fence.Some? == (s.fence.Some? != rules.fence(line))
    ensures Parsing(read, all, after, r, rest)
  {
    if rules.fence(line) {
      r, after := ReadFence(read, s, all, groups, rest);
    } else if s.fence.Some? {
      r := ReadVerbatim(read, line, s, all, groups, rest);
      after := groups;
    } else {
      assert OutsideFence(rules.classify(line));
      match rules.classify(line) {
        case Heading(level, text) => r, after := ReadHeading(read, level, text, s, all, groups, rest);
        case Item(text, ordered) => r, after := ReadItem(read, text, ordered, s, all, groups, rest);
        case Prose(text) => r, after := ReadProse(read, text, s, all, groups, rest);
        case Gap => r, after := ReadGap(read, s, all, groups, rest);
      }
    }
  }

  /** The text is read: a fence left open is a block too, then whatever is pending. */
  method Finish(read: string -> seq<Inline>, s: State, ghost all: seq<Mark>, ghost groups: seq<seq<Mark>>)
    returns (blocks: seq<Block>)
    requires Parsing(read, all, groups, s, if s.fence.Some? then [Close] else [])
    ensures Runs(Groups(all)) && blocks == RenderAll(read, Groups(all))
  {
    var r := s;
    ghost var after := groups;
    if s.fence.Some? {
      assert [Close] + [] == [Close];
      r, after := ReadFence(read, s, all, groups, []);
    }
    EndsBlock(all, after, r, [], after + RunOf(Pending(r)));
    RenderMore(read, after, RunOf(Pending(r)));
    r := FlushBoth(read, r);
    blocks := r.blocks;
  }

  method ParseBlocks(read: string -> seq<Inline>, rules: LineRules, lines: seq<string>) returns (blocks: seq<Block>)
    requires Sane(rules)
    ensures Runs(Groups(Marks(rules, lines, false)))
    ensures blocks == RenderAll(read, Groups(Marks(rules, lines, false)))
  {
    var s := State([], [], [], false, None);
    ghost var all, groups := Marks(rules, lines, false), [];
    assert lines[0..] == lines && Pending(s) + all == all;
    for i := 0 to |lines|
      invariant Parsing(read, all, groups, s, Marks(rules, lines[i..], s.fence.Some?))
    {
      ghost var rest := Marks(rules, lines[i + 1..], s.fence.Some? != rules.fence(lines[i]));
      assert lines[i..][1..] == lines[i + 1..];
      s, groups := ReadLine(read, rules, lines[i], s, all, groups, rest);
    }
    blocks := Finish(read, s, all, groups);
  }
}
