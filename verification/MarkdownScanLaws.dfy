/**
 * What cutting a text at the matches of a pattern gives back, and what it keeps.
 *
 * Both laws hold for any pattern. Reading back: when every printed token but a text
 * is matched whole, whatever follows it, then scanning the printed tokens gives them
 * back exactly when every text stays text where it is printed. Keeping: when a matched piece
 * is how its token is written, then the tokens, one after the other, are the text
 * as it was written, and no two text tokens are adjacent. The rules of the
 * application meet both conditions, which is shown where they are defined.
 */
module MarkdownScanLaws {
  import opened MarkdownScan

  /** No two text tokens in a row. */
  predicate Apart(tokens: seq<Inline>) {
    forall i :: 0 < i < |tokens| && TextAt(tokens, i) ==> !TextAt(tokens, i - 1)
  }

  predicate TextAt(tokens: seq<Inline>, i: nat) {
    i < |tokens| && tokens[i].Text?
  }

  function Print(shown: Inline -> string, tokens: seq<Inline>): string {
    if tokens == [] then "" else shown(tokens[0]) + Print(shown, tokens[1..])
  }

  /* ---- reading what was printed ---- */

  lemma {:induction false} FirstMatchIs(p: Pattern, s: string, i: nat)
    requires i <= |s| && (i < |s| ==> p.matched(s[i..]) > 0)
    requires forall j :: 0 <= j < i ==> p.matched(s[j..]) == 0
    ensures FirstMatch(p, s) == i
  {
    var k := FirstMatch(p, s);
  }

  /** `piece`, whatever follows it, is matched whole and read as `t`. */
  ghost predicate ReadAs(p: Pattern, piece: string, t: Inline) {
    p.token(piece) == t && forall rest :: p.matched(piece + rest) == |piece| > 0
  }

  /** A printed token that is not a text can be told from its neighbours. */
  ghost predicate Legible(p: Pattern, shown: Inline -> string, t: Inline) {
    if t.Text? then shown(t) == t.text != "" else ReadAs(p, shown(t), t)
  }

  /** A match that gives a text gives the text of its piece. */
  ghost predicate KeepsText(p: Pattern) {
    forall piece :: p.token(piece).Text? ==> p.token(piece).text == piece
  }

  /** What starts inside `text` when `rest` follows it is no match, or a match inside it that stays text. */
  ghost predicate StaysText(p: Pattern, text: string, rest: string)
    requires Fits(p)
    decreases |text|, 1
  {
    var s := text + rest;
    var i := FirstMatch(p, s);
    i < |text| ==> MatchStays(p, text, rest, i, p.matched(s[i..]), s)
  }

  ghost predicate MatchStays(p: Pattern, text: string, rest: string, i: nat, n: nat, s: string)
    requires Fits(p) && i < |text| && 0 < n <= |s| - i
    decreases |text|, 0
  {
    i + n <= |text| && p.token(s[i..][..n]).Text? && StaysText(p, text[i + n..], rest)
  }

  /** Every text of a list stays text where the list is printed. */
  ghost predicate TextsStay(p: Pattern, shown: Inline -> string, ts: seq<Inline>)
    requires Fits(p)
  {
    forall k :: 0 <= k < |ts| ==> StaysAt(p, shown, ts, k)
  }

  ghost predicate StaysAt(p: Pattern, shown: Inline -> string, ts: seq<Inline>, k: nat)
    requires Fits(p) && k < |ts|
  {
    ts[k].Text? ==> StaysText(p, ts[k].text, Print(shown, ts[k + 1..]))
  }

  ghost predicate EndsApart(tokens: seq<Inline>) {
    tokens != [] ==> !tokens[|tokens| - 1].Text?
  }

  lemma PushOnText(front: seq<Inline>, a: string, x: string)
    ensures PushText(front + [Text(a)], x) == front + [Text(a + x)]
  {
    var tokens := front + [Text(a)];
    assert tokens[..|tokens| - 1] == front;
    assert x == "" ==> a + x == a;
  }

  lemma PushOnOther(tokens: seq<Inline>, x: string)
    requires EndsApart(tokens) && x != ""
    ensures PushText(tokens, x) == tokens + [Text(x)]
  {
  }

  lemma PushTextTwice(tokens: seq<Inline>, x: string, y: string)
    ensures PushText(PushText(tokens, x), y) == PushText(tokens, x + y)
  {
    if x == "" {
      assert x + y == y;
    } else if y == "" {
      assert x + y == x;
    } else if EndsApart(tokens) {
      PushOnOther(tokens, x);
      PushOnOther(tokens, x + y);
      PushOnText(tokens, x, y);
    } else {
      PushTwiceOnText(tokens[..|tokens| - 1], tokens[|tokens| - 1].text, x, y, tokens);
    }
  }

  lemma PushTwiceOnText(front: seq<Inline>, a: string, x: string, y: string, tokens: seq<Inline>)
    requires tokens == front + [Text(a)]
    ensures PushText(PushText(tokens, x), y) == PushText(tokens, x + y)
  {
    PushOnText(front, a, x);
    PushOnText(front, a + x, y);
    PushOnText(front, a, x + y);
    assert a + x + y == a + (x + y);
  }

  /** The first match, as seen from behind a text that it does not start in. */
  lemma FirstMatchBehind(p: Pattern, text: string, rest: string)
    requires FirstMatch(p, text + rest) >= |text|
    ensures FirstMatch(p, rest) == FirstMatch(p, text + rest) - |text|
  {
    var s := text + rest;
    var i := FirstMatch(p, s);
    forall j | 0 <= j <= |rest| ensures rest[j..] == s[|text| + j..] {
    }
    forall j | 0 <= j < i - |text| ensures p.matched(rest[j..]) == 0 {
      assert p.matched(s[|text| + j..]) == 0;
    }
    FirstMatchIs(p, rest, i - |text|);
  }

  lemma ScanBehind(p: Pattern, text: string, rest: string, tokens: seq<Inline>)
    requires Fits(p) && FirstMatch(p, text + rest) >= |text|
    ensures Scan(p, text + rest, tokens) == Scan(p, rest, PushText(tokens, text))
  {
    var s := text + rest;
    var i := FirstMatch(p, s);
    FirstMatchBehind(p, text, rest);
    if i == |s| {
      PushTextTwice(tokens, text, rest);
    } else {
      var j := i - |text|;
      assert s[i..] == rest[j..] && s[..i] == text + rest[..j];
      PushTextTwice(tokens, text, rest[..j]);
      var n := p.matched(s[i..]);
      var after := Push(PushText(tokens, s[..i]), p.token(s[i..][..n]));
      ScanStep(p, s, i, n, tokens, s[i..][n..], after);
      ScanStep(p, rest, j, n, PushText(tokens, text), s[i..][n..], after);
    }
  }

  /** A match that gives a text joins the text before it. */
  lemma ScanTextMatch(p: Pattern, s: string, i: nat, n: nat, tokens: seq<Inline>)
    requires Fits(p) && KeepsText(p) && i == FirstMatch(p, s) < |s| && n == p.matched(s[i..])
    requires p.token(s[i..][..n]).Text?
    ensures 0 < n && i + n <= |s| && Scan(p, s, tokens) == Scan(p, s[i + n..], PushText(tokens, s[..i + n]))
  {
    var piece := s[i..][..n];
    assert p.token(piece) == Text(piece);
    assert s[..i + n] == s[..i] + piece;
    PushTextTwice(tokens, s[..i], piece);
    ScanStep(p, s, i, n, tokens, s[i + n..], PushText(tokens, s[..i + n]));
  }

  lemma SplitText(text: string, rest: string, k: nat)
    requires k <= |text|
    ensures (text + rest)[k..] == text[k..] + rest && (text + rest)[..k] == text[..k] && text[..k] + text[k..] == text
  {
  }

  lemma StaysStep(p: Pattern, text: string, rest: string, s: string, i: nat, n: nat)
    requires Fits(p) && s == text + rest && i == FirstMatch(p, s) < |text| && n == p.matched(s[i..])
    ensures StaysText(p, text, rest) <==>
      i + n <= |text| && p.token(s[i..][..n]).Text? && StaysText(p, text[i + n..], rest)
  {
  }

  lemma {:induction false} StayingText(p: Pattern, text: string, rest: string, tokens: seq<Inline>, s: string)
    requires Fits(p) && KeepsText(p) && StaysText(p, text, rest) && s == text + rest
    ensures Scan(p, s, tokens) == Scan(p, rest, PushText(tokens, text))
    decreases |text|
  {
    var i := FirstMatch(p, s);
    if i >= |text| {
      ScanBehind(p, text, rest, tokens);
    } else {
      var n := p.matched(s[i..]);
      StaysStep(p, text, rest, s, i, n);
      ScanTextMatch(p, s, i, n, tokens);
      SplitText(text, rest, i + n);
      StayingText(p, text[i + n..], rest, PushText(tokens, text[..i + n]), s[i + n..]);
      PushTextTwice(tokens, text[..i + n], text[i + n..]);
    }
  }

  /* What scanning goes on to do with the tokens read so far: it may extend a last text. */

  ghost predicate Extends(acc: seq<Inline>, r: seq<Inline>) {
    acc == []
    || (|acc| <= |r| && acc[..|acc| - 1] == r[..|acc| - 1] && ExtendsToken(acc[|acc| - 1], r[|acc| - 1]))
  }

  ghost predicate ExtendsToken(t: Inline, u: Inline) {
    t == u || (t.Text? && u.Text? && |t.text| < |u.text|)
  }

  lemma ExtendsTransitive(a: seq<Inline>, b: seq<Inline>, c: seq<Inline>)
    requires Extends(a, b) && Extends(b, c)
    ensures Extends(a, c)
  {
    if a != [] {
      var n := |a| - 1;
      assert b[..n] == b[..|b| - 1][..n] && c[..n] == c[..|b| - 1][..n];
      if n < |b| - 1 {
        assert b[n] == b[..|b| - 1][n] == c[..|b| - 1][n] == c[n];
      }
    }
  }

  lemma PushExtends(acc: seq<Inline>, t: Inline)
    requires t.Text? ==> t.text != ""
    ensures Extends(acc, Push(acc, t))
  {
  }

  lemma {:induction false} ScanExtends(p: Pattern, s: string, acc: seq<Inline>)
    requires Fits(p) && KeepsText(p)
    ensures Extends(acc, Scan(p, s, acc))
    decreases |s|
  {
    var i := FirstMatch(p, s);
    if i == |s| {
      PushTextExtends(acc, s);
    } else {
      var n := p.matched(s[i..]);
      var token := p.token(s[i..][..n]);
      var read := PushText(acc, s[..i]);
      PushTextExtends(acc, s[..i]);
      PushExtends(read, token);
      ExtendsTransitive(acc, read, Push(read, token));
      ScanStep(p, s, i, n, acc, s[i..][n..], Push(read, token));
      ScanExtends(p, s[i..][n..], Push(read, token));
      ExtendsTransitive(acc, Push(read, token), Scan(p, s, acc));
    }
  }

  lemma PushTextExtends(acc: seq<Inline>, x: string)
    ensures Extends(acc, PushText(acc, x))
  {
    if x != "" {
      PushExtends(acc, Text(x));
    }
  }

  /** The token after `tokens` is not this text. */
  ghost predicate Misses(r: seq<Inline>, tokens: seq<Inline>, text: string) {
    |tokens| < |r| ==> r[|tokens|] != Text(text)
  }

  lemma LongerTextMisses(p: Pattern, s: string, tokens: seq<Inline>, x: string, text: string)
    requires Fits(p) && KeepsText(p) && EndsApart(tokens) && |x| > |text|
    ensures Misses(Scan(p, s, PushText(tokens, x)), tokens, text)
  {
    ScanExtends(p, s, PushText(tokens, x));
  }

  lemma OtherTokenMisses(p: Pattern, s: string, tokens: seq<Inline>, x: string, t: Inline, text: string)
    requires Fits(p) && KeepsText(p) && EndsApart(tokens) && !t.Text? && |x| < |text|
    ensures Misses(Scan(p, s, PushText(tokens, x) + [t]), tokens, text)
  {
    var acc := PushText(tokens, x) + [t];
    var r := Scan(p, s, acc);
    ScanExtends(p, s, acc);
    if x != "" {
      assert acc[..|acc| - 1] == tokens + [Text(x)];
      assert r[|tokens|] == r[..|acc| - 1][|tokens|] == Text(x);
    }
  }

  /** A text that does not stay text is not read back. */
  lemma {:induction false} TextIsMissed(p: Pattern, text: string, rest: string, s: string, tokens: seq<Inline>,
      x: string)
    requires Fits(p) && KeepsText(p) && EndsApart(tokens) && !StaysText(p, text, rest) && s == text + rest
    ensures Misses(Scan(p, s, PushText(tokens, x)), tokens, x + text)
    decreases |text|
  {
    var i := FirstMatch(p, s);
    var n := p.matched(s[i..]);
    var token := p.token(s[i..][..n]);
    StaysStep(p, text, rest, s, i, n);
    if !token.Text? {
      PushTextTwice(tokens, x, s[..i]);
      ScanStep(p, s, i, n, PushText(tokens, x), s[i..][n..], PushText(tokens, x + s[..i]) + [token]);
      OtherTokenMisses(p, s[i..][n..], tokens, x + s[..i], token, x + text);
    } else {
      ScanTextMatch(p, s, i, n, PushText(tokens, x));
      PushTextTwice(tokens, x, s[..i + n]);
      if i + n > |text| {
        LongerTextMisses(p, s[i + n..], tokens, x + s[..i + n], x + text);
      } else {
        SplitText(text, rest, i + n);
        TextIsMissed(p, text[i + n..], rest, s[i + n..], tokens, x + text[..i + n]);
        Joined(x, text[..i + n], text[i + n..], text);
      }
    }
  }

  lemma Joined(x: string, a: string, b: string, text: string)
    requires text == a + b
    ensures x + a + b == x + text
  {
  }

  lemma ReadOne(p: Pattern, piece: string, t: Inline, rest: string, tokens: seq<Inline>)
    requires Fits(p) && ReadAs(p, piece, t) && !t.Text?
    ensures Scan(p, piece + rest, tokens) == Scan(p, rest, tokens + [t])
  {
    var s := piece + rest;
    assert s[0..] == s;
    FirstMatchIs(p, s, 0);
    assert s[..|piece|] == piece && s[|piece|..] == rest;
    ScanStep(p, s, 0, |piece|, tokens, rest, tokens + [t]);
  }

  lemma LaterStay(p: Pattern, shown: Inline -> string, ts: seq<Inline>)
    requires Fits(p) && ts != []
    ensures TextsStay(p, shown, ts) <==> StaysAt(p, shown, ts, 0) && TextsStay(p, shown, ts[1..])
  {
    forall k | 0 <= k < |ts| - 1 ensures StaysAt(p, shown, ts[1..], k) == StaysAt(p, shown, ts, k + 1) {
      assert ts[1..][k + 1..] == ts[k + 2..];
    }
    if TextsStay(p, shown, ts[1..]) && StaysAt(p, shown, ts, 0) {
      forall k | 0 <= k < |ts| ensures StaysAt(p, shown, ts, k) {
        assert k > 0 ==> StaysAt(p, shown, ts[1..], k - 1) == StaysAt(p, shown, ts, k - 1 + 1);
      }
    }
  }

  lemma ApartSplit(tokens: seq<Inline>, ts: seq<Inline>)
    requires Apart(tokens + ts) && ts != []
    ensures Apart(tokens + [ts[0]] + ts[1..]) && tokens + [ts[0]] + ts[1..] == tokens + ts
    ensures ts[0].Text? ==> EndsApart(tokens)
  {
    assert tokens + [ts[0]] + ts[1..] == tokens + ts;
    assert (tokens + ts)[|tokens|] == ts[0];
    if ts[0].Text? && tokens != [] {
      assert TextAt(tokens + ts, |tokens|) && !TextAt(tokens + ts, |tokens| - 1);
    }
  }

  lemma MissedIsOther(r: seq<Inline>, tokens: seq<Inline>, t: Inline, ts: seq<Inline>)
    requires t.Text? && Misses(r, tokens, t.text)
    ensures r != tokens + [t] + ts
  {
    assert (tokens + [t] + ts)[|tokens|] == t == Text(t.text);
  }

  /** Scanning printed tokens after some others gives them back exactly when their texts stay text. */
  lemma {:induction false} ReadPrinted(p: Pattern, shown: Inline -> string, ts: seq<Inline>, tokens: seq<Inline>)
    requires Fits(p) && KeepsText(p) && Apart(tokens + ts)
    requires forall t :: t in ts ==> Legible(p, shown, t)
    ensures Scan(p, Print(shown, ts), tokens) == tokens + ts <==> TextsStay(p, shown, ts)
    decreases |ts|
  {
    if ts == [] {
      assert tokens + ts == tokens;
    } else {
      var t, later, rest := ts[0], ts[1..], Print(shown, ts[1..]);
      assert Legible(p, shown, t);
      ApartSplit(tokens, ts);
      LaterStay(p, shown, ts);
      if !t.Text? {
        ReadOne(p, shown(t), t, rest, tokens);
        ReadPrinted(p, shown, later, tokens + [t]);
      } else if StaysText(p, t.text, rest) {
        StayingText(p, t.text, rest, tokens, t.text + rest);
        ReadPrinted(p, shown, later, tokens + [t]);
      } else {
        TextIsMissed(p, t.text, rest, t.text + rest, tokens, "");
        assert "" + t.text == t.text;
        MissedIsOther(Scan(p, t.text + rest, tokens), tokens, t, later);
      }
    }
  }

  lemma ReadBack(p: Pattern, shown: Inline -> string, tokens: seq<Inline>)
    requires Fits(p) && KeepsText(p) && Apart(tokens)
    requires forall t :: t in tokens ==> Legible(p, shown, t)
    ensures Scan(p, Print(shown, tokens), []) == tokens <==> TextsStay(p, shown, tokens)
  {
    assert [] + tokens == tokens;
    ReadPrinted(p, shown, tokens, []);
  }

  /** A text in which no match starts, whatever follows it, stays text. */
  lemma UnmatchedStays(p: Pattern, text: string, rest: string)
    requires Fits(p) && forall j :: 0 <= j < |text| ==> p.matched((text + rest)[j..]) == 0
    ensures StaysText(p, text, rest)
  {
  }

  /* ---- what the tokens keep of the text ---- */

  /** `s` is the tokens as they were written, one after the other. */
  ghost predicate Spells(wrote: (Inline, string) -> bool, tokens: seq<Inline>, s: string)
    decreases |tokens|
  {
    if tokens == [] then s == ""
    else exists k :: 0 <= k <= |s| && SpellsUpTo(wrote, tokens, s, k)
  }

  ghost predicate SpellsUpTo(wrote: (Inline, string) -> bool, tokens: seq<Inline>, s: string, k: nat)
    requires tokens != [] && k <= |s|
    decreases |tokens|, 0
  {
    Spells(wrote, tokens[..|tokens| - 1], s[..k]) && wrote(tokens[|tokens| - 1], s[k..])
  }

  /** A text token is written as it is, and none is empty; a matched piece is the writing of its
      token. */
  ghost predicate Writes(p: Pattern, wrote: (Inline, string) -> bool) {
    && (forall text, x :: wrote(Text(text), x) <==> text == x != "")
    && forall piece :: p.matched(piece) == |piece| > 0 ==> wrote(p.token(piece), piece)
  }

  /** A match is a match of its own piece. */
  ghost predicate SelfContained(p: Pattern) {
    forall s :: 0 < p.matched(s) <= |s| ==> p.matched(s[..p.matched(s)]) == p.matched(s)
  }

  /** Every token is the writing of something. */
  lemma {:induction false} SpellsEach(wrote: (Inline, string) -> bool, tokens: seq<Inline>, s: string)
    requires Spells(wrote, tokens, s)
    ensures forall t :: t in tokens ==> exists x :: wrote(t, x)
    decreases |tokens|
  {
    if tokens != [] {
      var k :| 0 <= k <= |s| && SpellsUpTo(wrote, tokens, s, k);
      SpellsEach(wrote, tokens[..|tokens| - 1], s[..k]);
      assert tokens == tokens[..|tokens| - 1] + [tokens[|tokens| - 1]];
    }
  }

  lemma SpellsLast(wrote: (Inline, string) -> bool, tokens: seq<Inline>, t: Inline, s: string, x: string)
    requires Spells(wrote, tokens, s) && wrote(t, x)
    ensures Spells(wrote, tokens + [t], s + x)
  {
    assert (tokens + [t])[..|tokens|] == tokens;
    assert (s + x)[..|s|] == s && (s + x)[|s|..] == x;
    assert SpellsUpTo(wrote, tokens + [t], s + x, |s|);
  }

  lemma PushSpells(p: Pattern, wrote: (Inline, string) -> bool, tokens: seq<Inline>, t: Inline, s: string, x: string)
    requires Writes(p, wrote) && Spells(wrote, tokens, s) && wrote(t, x)
    ensures Spells(wrote, Push(tokens, t), s + x)
  {
    if t.Text? && tokens != [] && tokens[|tokens| - 1].Text? {
      var k :| 0 <= k <= |s| && SpellsUpTo(wrote, tokens, s, k);
      var last := tokens[|tokens| - 1];
      assert s + x == s[..k] + (s[k..] + x);
      assert t == Text(t.text) && last == Text(last.text);
      assert last.text + t.text == s[k..] + x;
      SpellsLast(wrote, tokens[..|tokens| - 1], Text(last.text + t.text), s[..k], s[k..] + x);
    } else {
      SpellsLast(wrote, tokens, t, s, x);
    }
  }

  lemma PushApart(tokens: seq<Inline>, t: Inline)
    requires Apart(tokens)
    ensures Apart(Push(tokens, t))
  {
    var r := Push(tokens, t);
    forall i | 0 < i < |r| && TextAt(r, i) ensures !TextAt(r, i - 1) {
      assert TextAt(tokens, i - 1) == TextAt(r, i - 1);
      assert i < |tokens| ==> TextAt(tokens, i);
    }
  }

  lemma PushTextSpells(p: Pattern, wrote: (Inline, string) -> bool, tokens: seq<Inline>, s: string, x: string)
    requires Writes(p, wrote) && Spells(wrote, tokens, s) && Apart(tokens)
    ensures Spells(wrote, PushText(tokens, x), s + x) && Apart(PushText(tokens, x))
  {
    if x == "" {
      assert s + x == s;
    } else {
      PushSpells(p, wrote, tokens, Text(x), s, x);
      PushApart(tokens, Text(x));
    }
  }

  lemma Pieces(read: string, s: string, i: nat, n: nat)
    requires i + n <= |s|
    ensures read + s[..i] + s[i..][..n] + s[i..][n..] == read + s
  {
  }

  /** What reading up to the end of the first match keeps. */
  lemma ReadFaithful(p: Pattern, wrote: (Inline, string) -> bool,
      tokens: seq<Inline>, read: string, text: string, piece: string, after: seq<Inline>)
    requires Writes(p, wrote) && Apart(tokens) && Spells(wrote, tokens, read)
    requires p.matched(piece) == |piece| > 0
    requires after == Push(PushText(tokens, text), p.token(piece))
    ensures Apart(after) && Spells(wrote, after, read + text + piece)
  {
    PushTextSpells(p, wrote, tokens, read, text);
    PushSpells(p, wrote, PushText(tokens, text), p.token(piece), read + text, piece);
    PushApart(PushText(tokens, text), p.token(piece));
  }

  /** Every token is the writing of a part of the text, in order and without gaps. */
  lemma {:induction false} ScanFaithful(p: Pattern, wrote: (Inline, string) -> bool,
      s: string, tokens: seq<Inline>, read: string, all: string)
    requires Fits(p) && SelfContained(p) && Writes(p, wrote) && all == read + s
    requires Apart(tokens) && Spells(wrote, tokens, read)
    ensures Apart(Scan(p, s, tokens)) && Spells(wrote, Scan(p, s, tokens), all)
    decreases |s|
  {
    var i := FirstMatch(p, s);
    if i == |s| {
      PushTextSpells(p, wrote, tokens, read, s);
    } else {
      var n := p.matched(s[i..]);
      var piece, rest := s[i..][..n], s[i..][n..];
      var after := Push(PushText(tokens, s[..i]), p.token(piece));
      ReadFaithful(p, wrote, tokens, read, s[..i], piece, after);
      ScanStep(p, s, i, n, tokens, rest, after);
      Pieces(read, s, i, n);
      ScanFaithful(p, wrote, rest, after, read + s[..i] + piece, all);
    }
  }

  lemma Faithful(p: Pattern, wrote: (Inline, string) -> bool, s: string)
    requires Fits(p) && SelfContained(p) && Writes(p, wrote)
    ensures Apart(Scan(p, s, [])) && Spells(wrote, Scan(p, s, []), s)
  {
    assert "" + s == s;
    ScanFaithful(p, wrote, s, [], "", s);
  }
}
