/** What one line of a markdown text is, and which lines stand inside a fence. */
module MarkdownLines {
  import opened Basics
  import opened Whitespace

  /** A line, or the end of a fence the text leaves open, as the block parser sees it. */
  datatype Mark =
    | Heading(level: nat, text: string)
    | Item(text: string, ordered: bool)
    | Prose(text: string)
    | Verbatim(text: string)
    | Gap
    | Open
    | Close

  /* ---- one line ---- */

  predicate LineEnd(ch: char) {
    ch == '\n' || ch == '\r' || ch == '\U{2028}' || ch == '\U{2029}'
  }

  predicate OneLine(s: string) {
    forall i :: 0 <= i < |s| ==> !LineEnd(s[i])
  }

  /** The length of the longest beginning of `s` made of `#`. */
  function Hashes(s: string): (n: nat)
    ensures n <= |s| && (forall i :: 0 <= i < n ==> s[i] == '#') && (n < |s| ==> s[n] != '#')
  {
    if s == "" || s[0] != '#' then 0 else 1 + Hashes(s[1..])
  }

  /** The text after one or more blanks, up to the end of the line. */
  function AfterBlanks(s: string): Option<string> {
    if s != "" && IsSpace(s[0]) && OneLine(TrimStart(s)) then Some(TrimStart(s)) else None
  }

  predicate IsFence(line: string) {
    "```" <= TrimStart(line)
  }

  function HeadingText(line: string): Option<string> {
    var n := Hashes(line);
    if 1 <= n <= 4 then AfterBlanks(line[n..]) else None
  }

  predicate IsBullet(ch: char) {
    ch == '-' || ch == '*'
  }

  predicate EndsNumber(ch: char) {
    ch == '.' || ch == ')'
  }

  function BulletText(line: string): Option<string> {
    var s := TrimStart(line);
    if s != "" && IsBullet(s[0]) then AfterBlanks(s[1..]) else None
  }

  function NumberedText(line: string): Option<string> {
    var s := TrimStart(line);
    var n := Digits(s);
    if 1 <= n <= 9 && n < |s| && EndsNumber(s[n]) then AfterBlanks(s[n + 1..]) else None
  }

  /** A line that stands outside a fence and is not a fence marker. */
  function Classify(line: string): (m: Mark)
    ensures m.Prose? ==> m.text != "" && Trimmed(m.text)
    ensures !m.Verbatim? && !m.Open? && !m.Close?
  {
    TrimIsTrimmed(line);
    if HeadingText(line).Some? then Heading(Hashes(line), Trim(HeadingText(line).value))
    else if BulletText(line).Some? then Item(BulletText(line).value, false)
    else if NumberedText(line).Some? then Item(NumberedText(line).value, true)
    else if Trim(line) == "" then Gap
    else Prose(Trim(line))
  }

  /* ---- what the line patterns accept ---- */

  /** `s` is one or more blanks, then `text`, which neither starts with a blank nor breaks the line. */
  predicate BlanksThen(s: string, text: string) {
    && |text| < |s|
    && s[|s| - |text|..] == text
    && (forall i :: 0 <= i < |s| - |text| ==> IsSpace(s[i]))
    && (text != "" ==> !IsSpace(text[0]))
    && OneLine(text)
  }

  lemma AfterBlanksExactly(s: string, text: string)
    ensures AfterBlanks(s) == Some(text) <==> BlanksThen(s, text)
  {
    var t := TrimStart(s);
    if BlanksThen(s, text) {
      var n, k := |s| - |t|, |s| - |text|;
      assert n < |s| ==> t[0] == s[n];
      assert k < |s| ==> text[0] == s[k];
      assert n == k;
    }
  }

  /** Between one and four `#`, then blanks, then the text. */
  lemma HeadingExactly(line: string, text: string)
    ensures HeadingText(line) == Some(text) <==>
      exists n :: 1 <= n <= 4 && n <= |line| && (forall i :: 0 <= i < n ==> line[i] == '#')
        && BlanksThen(line[n..], text)
  {
    var n := Hashes(line);
    if HeadingText(line) == Some(text) {
      AfterBlanksExactly(line[n..], text);
    }
    if k :| 1 <= k <= 4 && k <= |line| && (forall i :: 0 <= i < k ==> line[i] == '#') && BlanksThen(line[k..], text) {
      assert IsSpace(line[k..][0]);
      assert n == k;
      AfterBlanksExactly(line[k..], text);
    }
  }

  /** The first `k` characters are blanks and the next one is none. */
  predicate Indented(line: string, k: nat) {
    k < |line| && (forall i :: 0 <= i < k ==> IsSpace(line[i])) && !IsSpace(line[k])
  }

  lemma IndentExactly(line: string, k: nat)
    ensures Indented(line, k) <==> k == Blanks(line) < |line|
  {
  }

  /** Blanks, one of `-` and `*`, blanks, and the text. */
  ghost predicate BulletLine(line: string, text: string) {
    exists k: nat :: BulletFrom(line, k, text)
  }

  predicate BulletFrom(line: string, k: nat, text: string) {
    Indented(line, k) && IsBullet(line[k]) && BlanksThen(line[k + 1..], text)
  }

  lemma BulletHas(line: string, s: string, text: string)
    requires s == TrimStart(line) && BulletText(line) == Some(text)
    ensures BulletFrom(line, Blanks(line), text)
  {
    var tail := s[1..];
    AfterBlanksExactly(tail, text);
    assert line[Blanks(line) + 1..] == tail;
  }

  lemma BulletIs(line: string, k: nat, text: string)
    requires BulletFrom(line, k, text)
    ensures BulletText(line) == Some(text)
  {
    IndentExactly(line, k);
    var tail := TrimStart(line)[1..];
    assert line[k + 1..] == tail;
    AfterBlanksExactly(tail, text);
  }

  lemma BulletExactly(line: string, text: string)
    ensures BulletText(line) == Some(text) <==> BulletLine(line, text)
  {
    if BulletText(line) == Some(text) {
      BulletHas(line, TrimStart(line), text);
    } else if k: nat :| BulletFrom(line, k, text) {
      BulletIs(line, k, text);
    }
  }

  /** `n` digits from place `k` on, then `.` or `)`. */
  predicate NumberAt(line: string, k: nat, n: nat) {
    k + n < |line| && (forall i :: k <= i < k + n ==> '0' <= line[i] <= '9') && EndsNumber(line[k + n])
  }

  /** Blanks, one to nine digits, one of `.` and `)`, blanks, and the text. */
  ghost predicate NumberedLine(line: string, text: string) {
    exists k: nat, n: nat :: NumberedFrom(line, k, n, text)
  }

  predicate NumberedFrom(line: string, k: nat, n: nat, text: string) {
    1 <= n <= 9 && Indented(line, k) && NumberAt(line, k, n) && BlanksThen(line[k + n + 1..], text)
  }

  lemma NumberedShifts(line: string, k: nat, n: nat, text: string)
    requires Indented(line, k)
    ensures NumberedFrom(line, k, n, text) <==> NumberedFrom(line[k..], 0, n, text)
  {
    NumberShifts(line, k, n);
    assert Indented(line[k..], 0);
  }

  lemma NumberedHas(line: string, s: string, text: string)
    requires s == TrimStart(line) && NumberedText(line) == Some(text)
    ensures s != "" && NumberedFrom(s, 0, Digits(s), text)
  {
    var n := Digits(s);
    var tail := s[n + 1..];
    assert AfterBlanks(tail) == Some(text);
    AfterBlanksExactly(tail, text);
    assert NumberAt(s, 0, n);
  }

  lemma NumberedIs(line: string, s: string, n: nat, text: string)
    requires s == TrimStart(line) && NumberedFrom(s, 0, n, text)
    ensures NumberedText(line) == Some(text)
  {
    DigitsExactly(s, n);
    var tail := s[n + 1..];
    AfterBlanksExactly(tail, text);
  }

  lemma NumberedExactly(line: string, text: string)
    ensures NumberedText(line) == Some(text) <==> NumberedLine(line, text)
  {
    var s, k := TrimStart(line), Blanks(line);
    if NumberedText(line) == Some(text) {
      NumberedHas(line, s, text);
      NumberedShifts(line, k, Digits(s), text);
      assert NumberedFrom(line, k, Digits(s), text);
    } else if j: nat, n: nat :| NumberedFrom(line, j, n, text) {
      IndentExactly(line, j);
      NumberedShifts(line, j, n, text);
      NumberedIs(line, s, n, text);
    }
  }

  lemma NumberShifts(line: string, k: nat, n: nat)
    requires k <= |line|
    ensures NumberAt(line, k, n) <==> NumberAt(line[k..], 0, n)
    ensures k + n < |line| ==> line[k + n + 1..] == line[k..][n + 1..]
  {
    if NumberAt(line, k, n) {
      assert forall i :: 0 <= i < n ==> line[k..][i] == line[k + i];
    }
    if NumberAt(line[k..], 0, n) {
      assert forall i :: k <= i < k + n ==> line[i] == line[k..][i - k];
    }
  }

  lemma DigitsExactly(s: string, d: nat)
    requires NumberAt(s, 0, d)
    ensures Digits(s) == d
  {
  }

  ghost predicate HeadingLine(line: string, level: nat, raw: string) {
    1 <= level <= 4 && level <= |line| && (forall i :: 0 <= i < level ==> line[i] == '#')
    && BlanksThen(line[level..], raw)
  }

  lemma HeadingLevel(line: string, level: nat, raw: string)
    ensures HeadingLine(line, level, raw) <==> HeadingText(line) == Some(raw) && Hashes(line) == level
  {
    if HeadingLine(line, level, raw) {
      assert IsSpace(line[level..][0]);
    }
    if level <= |line| {
      AfterBlanksExactly(line[level..], raw);
    }
  }

  /** What is left of `s` without the blanks at its ends. */
  ghost predicate TrimOf(s: string, text: string) {
    Trimmed(text) && exists k: nat :: TrimAt(s, text, k)
  }

  predicate TrimAt(s: string, text: string, k: nat) {
    k + |text| <= |s| && s[k..k + |text|] == text
    && (forall i :: 0 <= i < k ==> IsSpace(s[i])) && forall i :: k + |text| <= i < |s| ==> IsSpace(s[i])
  }

  lemma TrimFrom(s: string, n: nat, m: nat, text: string)
    requires n + m <= |s| && text == s[n..][..m]
    requires forall i :: 0 <= i < n ==> IsSpace(s[i])
    requires forall i :: m <= i < |s| - n ==> IsSpace(s[n..][i])
    ensures TrimAt(s, text, n)
  {
    assert s[n..n + m] == s[n..][..m];
    forall i | n + m <= i < |s| ensures IsSpace(s[i]) {
      assert s[i] == s[n..][i - n];
    }
  }

  lemma TrimsAt(s: string)
    ensures Trimmed(Trim(s)) && TrimAt(s, Trim(s), Blanks(s))
  {
    TrimIsTrimmed(s);
    TrimFrom(s, Blanks(s), |Trim(s)|, Trim(s));
  }

  lemma TrimExactly(s: string, text: string)
    ensures Trim(s) == text <==> TrimOf(s, text)
  {
    TrimsAt(s);
    if k: nat :| Trimmed(text) && TrimAt(s, text, k) {
      SameTrim(s, text, k, Trim(s), Blanks(s));
    }
  }

  lemma SameTrim(s: string, a: string, j: nat, b: string, k: nat)
    requires Trimmed(a) && TrimAt(s, a, j) && Trimmed(b) && TrimAt(s, b, k)
    ensures a == b
  {
    assert a != "" ==> a[0] == s[j] && a[|a| - 1] == s[j + |a| - 1];
    assert b != "" ==> b[0] == s[k] && b[|b| - 1] == s[k + |b| - 1];
  }

  /** What a line outside a fence is, character by character. */
  ghost predicate IsMark(line: string, m: Mark) {
    match m
    case Heading(level, text) => exists raw :: HeadingLine(line, level, raw) && TrimOf(raw, text)
    case Item(text, ordered) => if ordered then NumberedLine(line, text) else BulletLine(line, text)
    case Gap => forall i :: 0 <= i < |line| ==> IsSpace(line[i])
    case Prose(text) => text != "" && TrimOf(line, text) && IsPlain(line)
    case _ => false
  }

  /** No pattern matches the line. */
  ghost predicate IsPlain(line: string) {
    (forall level, text :: !HeadingLine(line, level, text))
    && (forall text :: !BulletLine(line, text))
    && forall text :: !NumberedLine(line, text)
  }

  lemma NotBlank(line: string)
    requires TrimStart(line) != ""
    ensures Trim(line) != ""
  {
    assert !IsSpace(TrimStart(line)[0]);
  }

  lemma HeadingStarts(line: string)
    requires HeadingText(line).Some?
    ensures TrimStart(line) == line && line != "" && line[0] == '#'
  {
  }

  lemma NumberStarts(line: string)
    requires NumberedText(line).Some?
    ensures TrimStart(line) != "" && '0' <= TrimStart(line)[0] <= '9'
  {
  }

  lemma BulletStarts(line: string)
    requires BulletText(line).Some?
    ensures TrimStart(line) != "" && IsBullet(TrimStart(line)[0])
  {
  }

  /** The patterns exclude each other: they differ in the first character that is no blank. */
  lemma OnePattern(line: string)
    ensures HeadingText(line).Some? ==> BulletText(line).None? && NumberedText(line).None? && Trim(line) != ""
    ensures BulletText(line).Some? ==> NumberedText(line).None? && Trim(line) != ""
    ensures NumberedText(line).Some? ==> Trim(line) != ""
  {
    var h, b, n := HeadingText(line).Some?, BulletText(line).Some?, NumberedText(line).Some?;
    if h {
      HeadingStarts(line);
    }
    if b {
      BulletStarts(line);
    }
    if n {
      NumberStarts(line);
    }
    if h || b || n {
      NotBlank(line);
    }
  }

  lemma PlainExactly(line: string)
    ensures IsPlain(line) <==> HeadingText(line).None? && BulletText(line).None? && NumberedText(line).None?
  {
    if IsPlain(line) {
      if HeadingText(line).Some? {
        HeadingLevel(line, Hashes(line), HeadingText(line).value);
      } else if BulletText(line).Some? {
        BulletExactly(line, BulletText(line).value);
      } else if NumberedText(line).Some? {
        NumberedExactly(line, NumberedText(line).value);
      }
    } else {
      if level, text :| HeadingLine(line, level, text) {
        HeadingLevel(line, level, text);
      } else if text :| BulletLine(line, text) {
        BulletExactly(line, text);
      } else {
        var text :| NumberedLine(line, text);
        NumberedExactly(line, text);
      }
    }
  }

  lemma ClassifyHeading(line: string, level: nat, text: string)
    ensures Classify(line) == Heading(level, text) <==> IsMark(line, Heading(level, text))
  {
    if Classify(line) == Heading(level, text) {
      HeadingLevel(line, level, HeadingText(line).value);
      TrimExactly(HeadingText(line).value, text);
    }
    if raw :| HeadingLine(line, level, raw) && TrimOf(raw, text) {
      HeadingLevel(line, level, raw);
      TrimExactly(raw, text);
    }
  }

  lemma ClassifyItem(line: string, text: string, ordered: bool)
    ensures Classify(line) == Item(text, ordered) <==> IsMark(line, Item(text, ordered))
  {
    OnePattern(line);
    BulletExactly(line, text);
    NumberedExactly(line, text);
  }

  lemma ClassifyProse(line: string, text: string)
    ensures Classify(line) == Prose(text) <==> IsMark(line, Prose(text))
  {
    PlainExactly(line);
    TrimExactly(line, text);
  }

  lemma BlankExactly(line: string)
    ensures Trim(line) == "" <==> forall i :: 0 <= i < |line| ==> IsSpace(line[i])
  {
    TrimIsTrimmed(line);
  }

  lemma ClassifyGap(line: string)
    ensures Classify(line) == Gap <==> IsMark(line, Gap)
  {
    OnePattern(line);
    BlankExactly(line);
  }

  /** A line is classified as exactly what it is: a heading of that many hashes, a bullet, a number, blank, or prose. */
  lemma ClassifyExactly(line: string, m: Mark)
    ensures Classify(line) == m <==> IsMark(line, m)
  {
    match m {
      case Heading(level, text) => ClassifyHeading(line, level, text);
      case Item(text, ordered) => ClassifyItem(line, text, ordered);
      case Prose(text) => ClassifyProse(line, text);
      case Gap => ClassifyGap(line);
      case _ =>
    }
  }

  /** Blanks and three backticks. */
  ghost predicate FenceLine(line: string) {
    exists k: nat :: FenceAt(line, k)
  }

  predicate FenceAt(line: string, k: nat) {
    k + 3 <= |line| && line[k..k + 3] == "```" && forall i :: 0 <= i < k ==> IsSpace(line[i])
  }

  lemma FenceExactly(line: string)
    ensures IsFence(line) <==> FenceLine(line)
  {
    var s, n := TrimStart(line), Blanks(line);
    if IsFence(line) {
      assert line[n..n + 3] == s[..3] == "```";
      assert FenceAt(line, n);
    }
    if k: nat :| FenceAt(line, k) {
      assert line[k..k + 3][0] == '`' == line[k];
      IndentExactly(line, k);
      assert s[..3] == line[k..k + 3];
    }
  }

  /* ---- fences ---- */

  /** Which lines mark a fence, and what a line outside a fence is. */
  datatype LineRules = LineRules(fence: string -> bool, classify: string -> Mark)

  function MarkdownRules(): LineRules {
    LineRules((line: string) => IsFence(line), (line: string) => Classify(line))
  }

  /** The mark of a line, inside a fence or not. */
  function MarkOf(rules: LineRules, line: string, inside: bool): Mark {
    if rules.fence(line) then (if inside then Close else Open)
    else if inside then Verbatim(line)
    else rules.classify(line)
  }

  /** Whether the text stands inside a fence after these lines. */
  predicate Within(rules: LineRules, lines: seq<string>, inside: bool)
    decreases |lines|
  {
    if lines == [] then inside else Within(rules, lines[1..], inside != rules.fence(lines[0]))
  }

  /** The marks of the lines left to read; a fence left open ends with the text. */
  function Marks(rules: LineRules, lines: seq<string>, inside: bool): seq<Mark>
    decreases |lines|
  {
    if lines == [] then if inside then [Close] else []
    else [MarkOf(rules, lines[0], inside)] + Marks(rules, lines[1..], inside != rules.fence(lines[0]))
  }

  /** There is one mark for each line, decided by the line and by where it stands, and one more for a
      fence left open. */
  lemma {:induction false} MarkOfLine(rules: LineRules, lines: seq<string>, inside: bool, i: nat)
    requires i < |lines|
    ensures |Marks(rules, lines, inside)| == |lines| + (if Within(rules, lines, inside) then 1 else 0)
    ensures Marks(rules, lines, inside)[i] == MarkOf(rules, lines[i], Within(rules, lines[..i], inside))
    decreases |lines|
  {
    var rest, next := lines[1..], inside != rules.fence(lines[0]);
    if i > 0 {
      MarkOfLine(rules, rest, next, i - 1);
      assert lines[..i][1..] == rest[..i - 1];
      assert rest[i - 1] == lines[i];
    } else if rest != [] {
      MarkOfLine(rules, rest, next, 0);
    }
  }

  function FenceCount(rules: LineRules, lines: seq<string>): nat
    decreases |lines|
  {
    if lines == [] then 0 else (if rules.fence(lines[0]) then 1 else 0) + FenceCount(rules, lines[1..])
  }

  /** A text stands inside a fence exactly after an odd number of fence markers. */
  lemma {:induction false} WithinIsOdd(rules: LineRules, lines: seq<string>, inside: bool)
    ensures Within(rules, lines, inside) <==> inside == (FenceCount(rules, lines) % 2 == 0)
    decreases |lines|
  {
    if lines != [] {
      WithinIsOdd(rules, lines[1..], inside != rules.fence(lines[0]));
    }
  }
}
