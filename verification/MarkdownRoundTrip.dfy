/**
 * Printing inline tokens and reading them back; what the tokens keep of their source.
 *
 * Any list of tokens comes back from its printed text exactly when it is canonical.
 * Any text is spelt by its tokens, up to the blanks around link targets, whether or
 * not it was printed from tokens; that also shows that only canonical lists come
 * back.
 */
module MarkdownRoundTrip {
  import opened Basics
  import opened Whitespace
  import opened MarkdownScan
  import opened MarkdownScanLaws
  import opened MarkdownInline

  /* ---- printing ---- */

  function Piece(t: Inline): string {
    match t
    case Text(text) => text
    case Code(text) => "`" + text + "`"
    case Strong(text) => "**" + text + "**"
    case Em(text) => "*" + text + "*"
    case Link(text, href) => "[" + text + "](" + href + ")"
  }

  /* ---- the tokens a text can have ---- */

  /** Not empty, free of the characters that end it, and shown only if it is safe to. */
  predicate Proper(t: Inline) {
    && t.text != ""
    && match t
       case Text(text) => true
       case Code(text) => '`' !in text
       case Strong(text) => '*' !in text
       case Em(text) => '*' !in text && '\n' !in text
       case Link(text, href) => ']' !in text && ')' !in href && SafeHref(href) == Some(href)
  }

  /** Proper tokens, no two texts in a row, each text printed where it is read as text. */
  ghost predicate Canonical(tokens: seq<Inline>) {
    Apart(tokens) && (forall t :: t in tokens ==> Proper(t)) && TextsStay(Rules(), Piece, tokens)
  }

  /* ---- one token ---- */

  lemma CodeReads(text: string, rest: string)
    requires text != "" && '`' !in text
    ensures MatchAt("`" + text + "`" + rest) == |text| + 2
  {
    var s := "`" + text + "`" + rest;
    assert s[..|text| + 2] == "`" + text + "`";
    assert Enclosed(s[..|text| + 2], "`", "`", "`");
    MatchExactly(s, |text| + 2);
  }

  lemma StrongReads(text: string, rest: string)
    requires text != "" && '*' !in text
    ensures MatchAt("**" + text + "**" + rest) == |text| + 4
  {
    var s := "**" + text + "**" + rest;
    assert s[..|text| + 4] == "**" + text + "**";
    assert Enclosed(s[..|text| + 4], "**", "**", "*");
    MatchExactly(s, |text| + 4);
  }

  lemma EmReads(text: string, rest: string)
    requires text != "" && '*' !in text && '\n' !in text
    ensures MatchAt("*" + text + "*" + rest) == |text| + 2
  {
    var s := "*" + text + "*" + rest;
    assert s[..|text| + 2] == "*" + text + "*";
    assert Enclosed(s[..|text| + 2], "*", "*", "*\n");
    MatchExactly(s, |text| + 2);
  }

  lemma LinkIsMarkup(text: string, href: string)
    requires text != "" && ']' !in text && href != "" && ')' !in href
    ensures LinkPiece("[" + text + "](" + href + ")")
  {
    var piece := "[" + text + "](" + href + ")";
    var a := |text| + 3;
    assert piece[..a] == "[" + text + "](";
    assert piece[a..] == href + ")";
    assert Enclosed("[" + text + "](", "[", "](", "]");
    assert Enclosed(href + ")", "", ")", ")");
  }

  lemma LinkReads(text: string, href: string, rest: string)
    requires text != "" && ']' !in text && href != "" && ')' !in href
    ensures MatchAt("[" + text + "](" + href + ")" + rest) == |text| + |href| + 4
  {
    var s := "[" + text + "](" + href + ")" + rest;
    LinkIsMarkup(text, href);
    assert s[..|text| + |href| + 4] == "[" + text + "](" + href + ")";
    MatchExactly(s, |text| + |href| + 4);
  }

  lemma TokenOfCode(text: string)
    ensures TokenOf("`" + text + "`") == Code(text)
  {
    var piece := "`" + text + "`";
    assert piece[0] == '`';
    assert Inside(piece, 1, 1) == text;
  }

  lemma TokenOfStrong(text: string)
    ensures TokenOf("**" + text + "**") == Strong(text)
  {
    var piece := "**" + text + "**";
    assert piece[0] == '*' && piece[1] == '*';
    assert Inside(piece, 2, 2) == text;
  }

  lemma TokenOfEm(text: string)
    requires text != "" && text[0] != '*'
    ensures TokenOf("*" + text + "*") == Em(text)
  {
    var piece := "*" + text + "*";
    assert piece[0] == '*' && piece[1] == text[0];
    assert Inside(piece, 1, 1) == text;
  }

  /** The text and the target of a written link. */
  lemma LinkParts(text: string, raw: string, piece: string)
    requires ']' !in text && piece == "[" + text + "](" + raw + ")"
    ensures Find(piece, "](") == |text| + 1
    ensures Inside(piece, |text| + 3, 1) == raw && Inside(piece, 1, |piece| - (|text| + 1)) == text
  {
    var k := |text| + 1;
    assert piece[k..] == "](" + raw + ")";
    FindAt(piece, "](", k);
  }

  lemma TokenAtSplit(piece: string, k: nat)
    requires "[" <= piece && Find(piece, "](") == k
    ensures var href := SafeHref(Inside(piece, k + 2, 1));
      TokenOf(piece) == if href == None then Text(piece) else Link(Inside(piece, 1, |piece| - k), href.value)
  {
    assert piece[0] == '[';
    assert !("`" <= piece) && !("**" <= piece);
  }

  lemma TokenOfLink(text: string, raw: string, piece: string)
    requires ']' !in text && piece == "[" + text + "](" + raw + ")"
    ensures TokenOf(piece) == if SafeHref(raw) == None then Text(piece) else Link(text, SafeHref(raw).value)
  {
    LinkParts(text, raw, piece);
    assert piece[..1] == "[";
    TokenAtSplit(piece, |text| + 1);
  }

  lemma SafeIsNotEmpty(href: string)
    requires SafeHref(href) == Some(href)
    ensures href != ""
  {
  }

  lemma PieceReads(t: Inline, rest: string)
    requires Proper(t) && !t.Text?
    ensures MatchAt(Piece(t) + rest) == |Piece(t)| > 0
  {
    match t
    case Code(text) => CodeReads(text, rest);
    case Strong(text) => StrongReads(text, rest);
    case Em(text) => EmReads(text, rest);
    case Link(text, href) =>
      SafeIsNotEmpty(href);
      LinkReads(text, href, rest);
  }

  lemma TokenOfPiece(t: Inline)
    requires Proper(t) && !t.Text?
    ensures TokenOf(Piece(t)) == t
  {
    match t
    case Code(text) => TokenOfCode(text);
    case Strong(text) => TokenOfStrong(text);
    case Em(text) => TokenOfEm(text);
    case Link(text, href) => TokenOfLink(text, href, Piece(t));
  }

  /* ---- nothing of the source is lost ---- */

  /** `x` is how a proper token may have been written: a link target may have had blanks around it. */
  ghost predicate Wrote(t: Inline, x: string) {
    && Proper(t)
    && match t
       case Link(text, href) => exists raw :: x == "[" + text + "](" + raw + ")" && Trim(raw) == href
       case _ => x == Piece(t)
  }

  lemma LinkSpelt(piece: string, k: nat, text: string, raw: string)
    requires 1 < k && k + 2 < |piece| - 1 && piece[0] == '[' && piece[k..k + 2] == "](" && piece[|piece| - 1] == ')'
    requires text == piece[1..k] && raw == piece[k + 2..|piece| - 1]
    ensures piece == "[" + text + "](" + raw + ")"
  {
    assert piece[..1] == "[" && piece[|piece| - 1..] == ")";
    assert piece == piece[..1] + piece[1..k] + piece[k..k + 2] + piece[k + 2..|piece| - 1] + piece[|piece| - 1..];
  }

  lemma PartLacks(s: string, i: nat, j: nat, ch: char)
    requires i <= j <= |s| && ch !in s
    ensures ch !in s[i..j]
  {
  }

  lemma TrimTakesPart(s: string, ch: char)
    requires ch !in s
    ensures ch !in Trim(s)
  {
    var t := TrimStart(s);
    PartLacks(s, |s| - |t|, |s|, ch);
    PartLacks(t, 0, |TrimEnd(t)|, ch);
  }

  lemma LinkAsWritten(text: string, raw: string, piece: string)
    requires text != "" && ']' !in text && ')' !in raw && piece == "[" + text + "](" + raw + ")"
    ensures Wrote(TokenOf(piece), piece)
  {
    TokenOfLink(text, raw, piece);
    if SafeHref(raw).Some? {
      SafeHrefKeeps(raw, SafeHref(raw).value);
      TrimTakesPart(raw, ')');
    }
  }

  lemma LinkWritten(piece: string)
    requires LinkLength(piece) == |piece| > 0
    ensures Wrote(TokenOf(piece), piece)
  {
    var k := Delimited(piece, "[", "](", "]") - 2;
    var target := piece[k + 2..];
    LinkFound(piece, k, target);
    var text, raw := piece[1..k], piece[k + 2..|piece| - 1];
    assert raw == target[..|target| - 1];
    LinkSpelt(piece, k, text, raw);
    LinkAsWritten(text, raw, piece);
  }

  lemma CodeWritten(piece: string)
    requires Delimited(piece, "`", "`", "`") == |piece| > 0
    ensures Wrote(TokenOf(piece), piece)
  {
    DelimitedParts(piece, "`", "`", "`", |piece|);
    var text := piece[1..|piece| - 1];
    assert piece == "`" + text + "`";
    TokenOfCode(text);
  }

  lemma StrongWritten(piece: string)
    requires Delimited(piece, "**", "**", "*") == |piece| > 0
    ensures Wrote(TokenOf(piece), piece)
  {
    DelimitedParts(piece, "**", "**", "*", |piece|);
    var text := piece[2..|piece| - 2];
    assert piece == "**" + text + "**";
    TokenOfStrong(text);
  }

  lemma EmWritten(piece: string)
    requires Delimited(piece, "*", "*", "*\n") == |piece| > 0
    ensures Wrote(TokenOf(piece), piece)
  {
    DelimitedParts(piece, "*", "*", "*\n", |piece|);
    var text := piece[1..|piece| - 1];
    assert piece == "*" + text + "*";
    assert text[0] == piece[1] != '*';
    TokenOfEm(text);
  }

  lemma TokenWritten(piece: string)
    requires MatchAt(piece) == |piece| > 0
    ensures Wrote(TokenOf(piece), piece)
  {
    MatchForm(piece);
    if "`" <= piece {
      CodeWritten(piece);
    } else if "**" <= piece {
      StrongWritten(piece);
    } else if "[" <= piece {
      LinkWritten(piece);
    } else {
      EmWritten(piece);
    }
  }

  lemma TextWritten(text: string, x: string)
    ensures Wrote(Text(text), x) <==> text == x != ""
  {
  }

  lemma RulesWrite()
    ensures Writes(Rules(), Wrote)
  {
    forall text, x ensures Wrote(Text(text), x) <==> text == x != "" {
      TextWritten(text, x);
    }
    forall piece | MatchAt(piece) == |piece| > 0 ensures Wrote(TokenOf(piece), piece) {
      TokenWritten(piece);
    }
  }

  lemma RulesSelfContained()
    ensures SelfContained(Rules())
  {
    forall s | 0 < MatchAt(s) ensures MatchAt(s[..MatchAt(s)]) == MatchAt(s) {
      MatchOfMatch(s);
    }
  }

  /** For any text: the tokens are the text as it was written, cut into pieces, up to the blanks
      around link targets; no token is empty, no two texts are adjacent, no piece holds the
      character that ends it, and every link shown is safe. */
  lemma InlineFaithful(s: string)
    ensures Spells(Wrote, Scan(Rules(), s, []), s) && Apart(Scan(Rules(), s, []))
  {
    RulesWrite();
    RulesSelfContained();
    Faithful(Rules(), Wrote, s);
  }

  /* ---- the round trip ---- */

  lemma RulesRead(t: Inline)
    requires Proper(t) && !t.Text?
    ensures ReadAs(Rules(), Piece(t), t)
  {
    TokenOfPiece(t);
    forall rest ensures MatchAt(Piece(t) + rest) == |Piece(t)| > 0 {
      PieceReads(t, rest);
    }
  }

  lemma ProperIsLegible(t: Inline)
    requires Proper(t)
    ensures Legible(Rules(), Piece, t)
  {
    if !t.Text? {
      RulesRead(t);
    }
  }

  lemma RulesKeepText()
    ensures KeepsText(Rules())
  {
    forall piece | TokenOf(piece).Text? ensures TokenOf(piece).text == piece {
    }
  }

  lemma ScannedIsProper(s: string)
    ensures Apart(Scan(Rules(), s, [])) && forall t :: t in Scan(Rules(), s, []) ==> Proper(t)
  {
    InlineFaithful(s);
    SpellsEach(Wrote, Scan(Rules(), s, []), s);
  }

  lemma ProperRoundTrip(tokens: seq<Inline>)
    requires Apart(tokens) && forall t :: t in tokens ==> Proper(t)
    ensures Scan(Rules(), Print(Piece, tokens), []) == tokens <==> TextsStay(Rules(), Piece, tokens)
  {
    RulesKeepText();
    forall t | t in tokens ensures Legible(Rules(), Piece, t) {
      ProperIsLegible(t);
    }
    ReadBack(Rules(), Piece, tokens);
  }

  /** Printing any list of tokens and reading the result gives that list back exactly when it is canonical. */
  lemma InlineRoundTrip(tokens: seq<Inline>)
    ensures Scan(Rules(), Print(Piece, tokens), []) == tokens <==> Canonical(tokens)
  {
    ScannedIsProper(Print(Piece, tokens));
    if Apart(tokens) && forall t :: t in tokens ==> Proper(t) {
      ProperRoundTrip(tokens);
    }
  }

  /* ---- texts that stay text wherever they are printed ---- */

  predicate Plain(ch: char) {
    ch != '`' && ch != '*' && ch != '['
  }

  lemma PlainHasNoMatch(s: string)
    requires s != "" && Plain(s[0])
    ensures MatchAt(s) == 0
  {
    assert !("`" <= s) && !("**" <= s) && !("*" <= s) && !("[" <= s);
  }

  lemma PlainStays(text: string, rest: string)
    requires forall i :: 0 <= i < |text| ==> Plain(text[i])
    ensures StaysText(Rules(), text, rest)
  {
    forall j | 0 <= j < |text| ensures MatchAt((text + rest)[j..]) == 0 {
      assert (text + rest)[j..][0] == text[j];
      PlainHasNoMatch((text + rest)[j..]);
    }
    UnmatchedStays(Rules(), text, rest);
  }

  /** Texts without a backtick, an asterisk or an opening bracket always come back. */
  lemma PlainTextsComeBack(tokens: seq<Inline>)
    requires Apart(tokens) && forall t :: t in tokens ==>
      Proper(t) && (t.Text? ==> forall i :: 0 <= i < |t.text| ==> Plain(t.text[i]))
    ensures Scan(Rules(), Print(Piece, tokens), []) == tokens
  {
    forall k: nat | k < |tokens| ensures StaysAt(Rules(), Piece, tokens, k) {
      if tokens[k].Text? {
        PlainStays(tokens[k].text, Print(Piece, tokens[k + 1..]));
      }
    }
    ProperRoundTrip(tokens);
  }
}
