/** Cutting a text into tokens at the matches of a pattern. */
module MarkdownScan {

  datatype Inline =
    | Text(text: string)
    | Code(text: string)
    | Strong(text: string)
    | Em(text: string)
    | Link(text: string, href: string)

  /** A pattern: how many characters it matches at the start of a text (0 for none), and the token
      of a matched piece. */
  datatype Pattern = Pattern(matched: string -> nat, token: string -> Inline)

  ghost predicate Fits(p: Pattern) {
    forall s :: p.matched(s) <= |s|
  }

  /** Where the first match starts; the length of `s` without one. */
  function FirstMatch(p: Pattern, s: string): (i: nat)
    ensures i <= |s| && (i < |s| ==> p.matched(s[i..]) > 0)
    ensures forall j :: 0 <= j < i ==> p.matched(s[j..]) == 0
  {
    if s == "" || p.matched(s) > 0 then 0
    else
      var i := FirstMatch(p, s[1..]);
      assert s[0..] == s;
      assert forall j :: 1 <= j <= i + 1 ==> s[1..][j - 1..] == s[j..];
      1 + i
  }

  function Push(tokens: seq<Inline>, token: Inline): seq<Inline> {
    if token.Text? && tokens != [] && tokens[|tokens| - 1].Text? then
      tokens[..|tokens| - 1] + [Text(tokens[|tokens| - 1].text + token.text)]
    else tokens + [token]
  }

  function PushText(tokens: seq<Inline>, text: string): seq<Inline> {
    if text == "" then tokens else Push(tokens, Text(text))
  }

  /** What is left of a text after its first match. */
  function Rest(p: Pattern, s: string): (r: string)
    requires Fits(p) && FirstMatch(p, s) < |s|
    ensures |r| < |s|
  {
    var i := FirstMatch(p, s);
    s[i..][p.matched(s[i..])..]
  }

  /** The tokens once the text up to its first match, and that match, are read. */
  function Read(p: Pattern, s: string, tokens: seq<Inline>): seq<Inline>
    requires Fits(p) && FirstMatch(p, s) < |s|
  {
    var i := FirstMatch(p, s);
    Push(PushText(tokens, s[..i]), p.token(s[i..][..p.matched(s[i..])]))
  }

  function Scan(p: Pattern, s: string, tokens: seq<Inline>): seq<Inline>
    requires Fits(p)
    decreases |s|
  {
    if FirstMatch(p, s) == |s| then PushText(tokens, s) else Scan(p, Rest(p, s), Read(p, s, tokens))
  }

  /** What is read up to the end of the first match, and what is left then. */
  lemma ScanStep(p: Pattern, s: string, i: nat, size: nat, tokens: seq<Inline>, rest: string, read: seq<Inline>)
    requires Fits(p) && i == FirstMatch(p, s) < |s| && size == p.matched(s[i..])
    requires 0 < size <= |s| - i
    requires rest == s[i..][size..] && read == Push(PushText(tokens, s[..i]), p.token(s[i..][..size]))
    ensures Scan(p, s, tokens) == Scan(p, rest, read)
  {
    assert rest == Rest(p, s) && read == Read(p, s, tokens);
  }

  lemma Slices(text: string, cursor: nat, index: nat, size: nat)
    requires cursor <= index && index + size <= |text|
    ensures text[cursor..][..index - cursor] == text[cursor..index]
    ensures text[cursor..][index - cursor..] == text[index..]
    ensures text[index..][size..] == text[index + size..]
    ensures text[index..][..size] == text[index..index + size]
  {
  }

  method Tokenise(p: Pattern, text: string) returns (tokens: seq<Inline>)
    requires Fits(p)
    ensures tokens == Scan(p, text, [])
  {
    tokens := [];
    var cursor := 0;
    var index := FirstMatch(p, text);
    ghost var rest, goal := text, Scan(p, text, []);
    while index < |text|
      invariant cursor <= index <= |text| && rest == text[cursor..] && index == cursor + FirstMatch(p, rest)
      invariant goal == Scan(p, rest, tokens)
      decreases |text| - cursor
    {
      Slices(text, cursor, index, 0);
      var size := p.matched(text[index..]);
      Slices(text, cursor, index, size);
      ghost var before, following := tokens, text[index + size..];
      if index > cursor {
        tokens := Push(tokens, Text(text[cursor..index]));
      }
      assert tokens == PushText(before, text[cursor..index]);
      tokens := Push(tokens, p.token(text[index..index + size]));
      ScanStep(p, rest, index - cursor, size, before, following, tokens);
      cursor, rest := index + size, following;
      index := cursor + FirstMatch(p, text[cursor..]);
    }
    if cursor < |text| {
      tokens := Push(tokens, Text(text[cursor..]));
    }
  }
}
