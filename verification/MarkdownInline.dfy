/** Inline markdown: which links may be shown, and what the pattern matches. */
module MarkdownInline {
  import opened Basics
  import opened MarkdownScan
  import opened Whitespace

  /* ---- link safety ---- */

  const SAFE_SCHEMES: set<string> := {"http:", "https:", "mailto:"}

  /** What a browser drops before it reads the scheme of an address. */
  predicate Ignored(ch: char) {
    ch <= ' ' || ch == '\U{007f}' || ch == '\U{00a0}' || ch == '\U{2028}' || ch == '\U{2029}'
  }

  function Probe(s: string): string {
    if s == "" then "" else (if Ignored(s[0]) then "" else [s[0]]) + Probe(s[1..])
  }

  predicate Letter(ch: char) {
    'a' <= ch <= 'z' || 'A' <= ch <= 'Z'
  }

  predicate SchemeChar(ch: char) {
    Letter(ch) || '0' <= ch <= '9' || ch == '+' || ch == '.' || ch == '-'
  }

  /** The length of the longest beginning made of scheme characters. */
  function SchemeSpan(s: string): (n: nat)
    ensures n <= |s| && (forall i :: 0 <= i < n ==> SchemeChar(s[i])) && (n < |s| ==> !SchemeChar(s[n]))
  {
    if s == "" || !SchemeChar(s[0]) then 0 else 1 + SchemeSpan(s[1..])
  }

  /** The scheme in front of the first colon, when it is a legal one. */
  function Scheme(s: string): Option<string> {
    var n := SchemeSpan(s);
    if n > 0 && Letter(s[0]) && n < |s| && s[n] == ':' then Some(s[..n]) else None
  }

  /** Whether what the browser reads of an address may be followed. */
  predicate Accepted(probe: string) {
    && probe != ""
    && !("//" <= probe)
    && if Scheme(probe).Some? then Lower(Scheme(probe).value) + ":" in SAFE_SCHEMES
       else probe[0] in "/?#" || "./" <= probe || "../" <= probe
  }

  function SafeHref(raw: string): Option<string> {
    var href := Trim(raw);
    if href != "" && Accepted(Probe(href)) then Some(href) else None
  }

  /** `s` starts with `prefix`, whatever the case of its letters. */
  predicate StartsWith(s: string, prefix: string) {
    |prefix| <= |s| && Lower(s[..|prefix|]) == prefix
  }

  /** The two kinds of address that are accepted: by scheme, and by a shape the code takes for relative. */
  predicate PageOrDraft(s: string) {
    StartsWith(s, "http:") || StartsWith(s, "https:") || StartsWith(s, "mailto:")
  }

  predicate Relative(s: string) {
    "?" <= s || "#" <= s || "./" <= s || "../" <= s || ("/" <= s && !("//" <= s))
  }

  lemma SchemeOfPrefix(s: string, name: string)
    requires forall i :: 0 <= i < |name| ==> 'a' <= name[i] <= 'z'
    requires name != ""
    ensures StartsWith(s, name + ":") <==> Scheme(s).Some? && Lower(Scheme(s).value) == name
  {
    var n := SchemeSpan(s);
    var k := |name|;
    if StartsWith(s, name + ":") {
      forall i | 0 <= i <= k ensures LowerChar(s[i]) == (name + ":")[i] {
        assert Lower(s[..k + 1])[i] == LowerChar(s[..k + 1][i]);
      }
      assert forall i :: 0 <= i < k ==> Letter(s[i]);
      assert s[k] == ':';
      assert n == k;
      assert Lower(s[..k]) == name;
    }
    if Scheme(s).Some? && Lower(Scheme(s).value) == name {
      assert |Lower(s[..n])| == n == k;
      assert Lower(s[..n + 1]) == Lower(s[..n]) + ":";
    }
  }

  lemma SameBeforeColon(a: string, b: string)
    ensures a + ":" == b + ":" <==> a == b
  {
    assert a == (a + ":")[..|a + ":"| - 1];
    assert b == (b + ":")[..|b + ":"| - 1];
  }

  lemma SafeScheme(scheme: string)
    ensures scheme + ":" in SAFE_SCHEMES <==> scheme in {"http", "https", "mailto"}
  {
    SameBeforeColon(scheme, "http");
    SameBeforeColon(scheme, "https");
    SameBeforeColon(scheme, "mailto");
    assert "http" + ":" == "http:" && "https" + ":" == "https:" && "mailto" + ":" == "mailto:";
  }

  lemma RelativeHasNoScheme(s: string)
    requires Relative(s)
    ensures Scheme(s) == None
  {
    assert s[0] in "/?#.";
  }

  lemma RelativeShapes(s: string)
    requires s != ""
    ensures Relative(s) <==> !("//" <= s) && (s[0] in "/?#" || "./" <= s || "../" <= s)
  {
    assert "/" <= s <==> s[0] == '/';
    assert "?" <= s <==> s[0] == '?';
    assert "#" <= s <==> s[0] == '#';
  }

  lemma AcceptedExactly(probe: string)
    ensures Accepted(probe) <==> PageOrDraft(probe) || Relative(probe)
  {
    assert "http" + ":" == "http:" && "https" + ":" == "https:" && "mailto" + ":" == "mailto:";
    SchemeOfPrefix(probe, "http");
    SchemeOfPrefix(probe, "https");
    SchemeOfPrefix(probe, "mailto");
    if probe != "" {
      RelativeShapes(probe);
      if Relative(probe) {
        RelativeHasNoScheme(probe);
      } else if Scheme(probe).Some? {
        SafeScheme(Lower(Scheme(probe).value));
        assert Letter(probe[0]);
      }
    }
  }

  /** A link is shown exactly when its address, without the ignored characters, has one of the three
      schemes or one of the relative shapes. `AcceptedGoes` says where a browser takes it. */
  lemma SafeHrefExactly(raw: string)
    ensures SafeHref(raw).Some? <==> PageOrDraft(Probe(Trim(raw))) || Relative(Probe(Trim(raw)))
  {
    AcceptedExactly(Probe(Trim(raw)));
  }

  /** An accepted address comes back trimmed and otherwise as written, and judging it again
      changes nothing. */
  lemma SafeHrefKeeps(raw: string, href: string)
    requires SafeHref(raw) == Some(href)
    ensures href == Trim(raw) && Trimmed(href) && SafeHref(href) == Some(href)
  {
    TrimIsTrimmed(raw);
    TrimIsTrimmed(href);
  }

  /* ---- where a browser takes an accepted address ---- */

  // Section 4.4 of the URL Standard: blanks and controls at both ends are stripped, then
  // tabs and line ends are removed. What is left has a scheme, or is relative to the page;
  // on a page of an http or https site a backslash is read as a slash, and a relative
  // address that starts with two of them names another host.

  function StripStart(s: string): string {
    if s != "" && s[0] <= ' ' then StripStart(s[1..]) else s
  }

  function StripEnd(s: string): string {
    if s != "" && s[|s| - 1] <= ' ' then StripEnd(s[..|s| - 1]) else s
  }

  predicate TabOrLineEnd(ch: char) {
    ch == '\t' || ch == '\n' || ch == '\r'
  }

  function WithoutBreaks(s: string): string {
    if s == "" then "" else if TabOrLineEnd(s[0]) then WithoutBreaks(s[1..]) else [s[0]] + WithoutBreaks(s[1..])
  }

  function Browsed(href: string): string {
    WithoutBreaks(StripEnd(StripStart(href)))
  }

  predicate SlashLike(ch: char) {
    ch == '/' || ch == '\\'
  }

  /** A relative address that names another host. */
  predicate NamesHost(address: string) {
    Scheme(address).None? && |address| >= 2 && SlashLike(address[0]) && SlashLike(address[1])
  }

  lemma ProbeCons(ch: char, s: string)
    ensures Probe([ch] + s) == if Ignored(ch) then Probe(s) else [ch] + Probe(s)
  {
    assert ([ch] + s)[1..] == s;
  }

  lemma {:induction false} ProbeAppend(s: string, ch: char)
    requires Ignored(ch)
    ensures Probe(s + [ch]) == Probe(s)
  {
    if s == "" {
      assert s + [ch] == [ch] + "";
      ProbeCons(ch, "");
    } else {
      ProbeAppend(s[1..], ch);
      ProbeCons(s[0], s[1..] + [ch]);
      assert s + [ch] == [s[0]] + (s[1..] + [ch]);
    }
  }

  lemma {:induction false} ProbeStripStart(s: string)
    ensures Probe(StripStart(s)) == Probe(s)
  {
    if s != "" && s[0] <= ' ' {
      ProbeStripStart(s[1..]);
    }
  }

  lemma {:induction false} ProbeStripEnd(s: string)
    ensures Probe(StripEnd(s)) == Probe(s)
  {
    if s != "" && s[|s| - 1] <= ' ' {
      var front, last := s[..|s| - 1], s[|s| - 1];
      ProbeStripEnd(front);
      ProbeAppend(front, last);
      assert s == front + [last];
    }
  }

  lemma {:induction false} ProbeWithoutBreaks(s: string)
    ensures Probe(WithoutBreaks(s)) == Probe(s)
  {
    if s != "" {
      ProbeWithoutBreaks(s[1..]);
      if !TabOrLineEnd(s[0]) {
        ProbeCons(s[0], WithoutBreaks(s[1..]));
      }
    }
  }

  /** The ignored characters hold all that a browser drops. */
  lemma ProbeOfBrowsed(href: string)
    ensures Probe(Browsed(href)) == Probe(href)
  {
    ProbeStripStart(href);
    ProbeStripEnd(StripStart(href));
    ProbeWithoutBreaks(StripEnd(StripStart(href)));
  }

  /** A beginning without ignored characters is a beginning of what is judged. */
  lemma {:induction false} ProbeKeeps(s: string, n: nat)
    requires n <= |s| && forall i :: 0 <= i < n ==> !Ignored(s[i])
    ensures n <= |Probe(s)| && Probe(s)[..n] == s[..n]
    decreases n
  {
    if n > 0 {
      var rest := Probe(s[1..]);
      ProbeKeeps(s[1..], n - 1);
      assert s == [s[0]] + s[1..];
      ProbeCons(s[0], s[1..]);
      assert ([s[0]] + rest)[..n] == [s[0]] + rest[..n - 1];
      assert s[..n] == [s[0]] + s[1..][..n - 1];
    }
  }

  lemma SameScheme(s: string, probe: string, n: nat)
    requires n == SchemeSpan(s) && n < |s| && n < |probe| && probe[..n + 1] == s[..n + 1]
    ensures Scheme(probe) == Scheme(s)
  {
    assert forall i :: 0 <= i <= n ==> probe[i] == probe[..n + 1][i] == s[i];
    assert SchemeSpan(probe) == n;
    assert probe[..n] == probe[..n + 1][..n] == s[..n];
  }

  lemma SchemeKept(s: string)
    requires Scheme(s).Some?
    ensures Scheme(Probe(s)) == Scheme(s)
  {
    var n := SchemeSpan(s);
    ProbeKeeps(s, n + 1);
    SameScheme(s, Probe(s), n);
  }

  lemma AcceptedScheme(probe: string)
    requires Accepted(probe) && Scheme(probe).Some?
    ensures Lower(Scheme(probe).value) in {"http", "https", "mailto"}
  {
    SafeScheme(Lower(Scheme(probe).value));
  }

  /** Of two slashes in front, an accepted probe has a slash and then a backslash. */
  lemma AcceptedSlashes(probe: string)
    requires Accepted(probe) && |probe| >= 2 && SlashLike(probe[0]) && SlashLike(probe[1])
    ensures probe[0] == '/' && probe[1] == '\\'
  {
    assert SchemeSpan(probe) == 0;
    assert "//" <= probe <==> probe[0] == '/' && probe[1] == '/';
    assert !("./" <= probe) && !("../" <= probe);
  }

  lemma AcceptedHost(address: string)
    requires Accepted(Probe(address))
    ensures NamesHost(address) <==> "/\\" <= address
  {
    if NamesHost(address) {
      ProbeKeeps(address, 2);
      var probe := Probe(address);
      assert probe[0] == probe[..2][0] == address[..2][0] && probe[1] == probe[..2][1] == address[..2][1];
      AcceptedSlashes(probe);
    }
    if "/\\" <= address {
      assert address[0] == '/' && address[1] == '\\';
    }
  }

  /**
   * Where an accepted address leads: what a browser reads as its scheme is http, https or mailto, and
   * without a scheme it names another host exactly when it starts with a slash and a backslash.
   */
  lemma AcceptedGoes(raw: string, href: string)
    requires SafeHref(raw) == Some(href)
    ensures var address := Browsed(href);
      && (Scheme(address).Some? ==> Lower(Scheme(address).value) in {"http", "https", "mailto"})
      && (NamesHost(address) <==> "/\\" <= address)
  {
    var address := Browsed(href);
    ProbeOfBrowsed(href);
    AcceptedHost(address);
    if Scheme(address).Some? {
      SchemeKept(address);
      AcceptedScheme(Probe(address));
    }
  }

  lemma Visible(s: string)
    requires s != "" && forall i :: 0 <= i < |s| ==> !Ignored(s[i])
    ensures Browsed(s) == s && Probe(s) == s
  {
    NothingToStrip(s);
    NoBreaks(s);
    ProbeKeeps(s, |s|);
    ProbeNoLonger(s);
    assert Probe(s)[..|s|] == Probe(s);
  }

  lemma NothingToStrip(s: string)
    requires s != "" && !Ignored(s[0]) && !Ignored(s[|s| - 1])
    ensures StripEnd(StripStart(s)) == s
  {
  }

  lemma {:induction false} NoBreaks(s: string)
    requires forall i :: 0 <= i < |s| ==> !Ignored(s[i])
    ensures WithoutBreaks(s) == s
  {
    if s != "" {
      NoBreaks(s[1..]);
    }
  }

  lemma {:induction false} ProbeNoLonger(s: string)
    ensures |Probe(s)| <= |s|
  {
    if s != "" {
      ProbeNoLonger(s[1..]);
    }
  }

  lemma SlashBackslash(s: string)
    requires "/\\" <= s
    ensures Accepted(s) && NamesHost(s) && !IsSpace(s[0])
  {
    assert s[0] == '/' && s[1] == '\\';
    assert SchemeSpan(s) == 0;
  }

  lemma ShownAsWritten(s: string)
    requires s != "" && Trimmed(s) && Probe(s) == s && Accepted(s)
    ensures SafeHref(s) == Some(s)
  {
    TrimIsTrimmed(s);
  }

  lemma BackslashBrowsed(s: string)
    requires "/\\" <= s && Browsed(s) == s
    ensures NamesHost(Browsed(s))
  {
    SlashBackslash(s);
  }

  lemma BackslashShown(s: string)
    requires "/\\" <= s && Trimmed(s) && forall i :: 0 <= i < |s| ==> !Ignored(s[i])
    ensures SafeHref(s) == Some(s) && NamesHost(Browsed(s))
  {
    assert SafeHref(s) == Some(s) by {
      Visible(s);
      SlashBackslash(s);
      ShownAsWritten(s);
    }
    assert NamesHost(Browsed(s)) by {
      Visible(s);
      BackslashBrowsed(s);
    }
  }

  /** An accepted address that is no reference within the site. */
  lemma BackslashNamesHost()
    ensures var href := "/\\example.org"; SafeHref(href) == Some(href) && NamesHost(Browsed(href))
  {
    var href := "/\\example.org";
    assert href[..2] == "/\\" && Trimmed(href);
    BackslashShown(href);
  }

  /* ---- what the pattern matches ---- */

  /** The length of the longest beginning without a character of `stops`. */
  function Span(s: string, stops: string): (n: nat)
    ensures n <= |s| && (forall i :: 0 <= i < n ==> s[i] !in stops) && (n < |s| ==> s[n] in stops)
  {
    if s == "" || s[0] in stops then 0 else 1 + Span(s[1..], stops)
  }

  /** The length of `open`, one or more characters outside `stops`, and `close` at the start of
      `s`; 0 without such a beginning. */
  function Delimited(s: string, open: string, close: string, stops: string): (k: nat)
    ensures k <= |s|
  {
    if open <= s then
      var n := Span(s[|open|..], stops);
      if n > 0 && close <= s[|open| + n..] then |open| + n + |close| else 0
    else 0
  }

  function LinkLength(s: string): (k: nat)
    ensures k <= |s|
  {
    var a := Delimited(s, "[", "](", "]");
    var b := if a > 0 then Delimited(s[a..], "", ")", ")") else 0;
    if b > 0 then a + b else 0
  }

  /** The length of the match at the start of `s`, the alternatives tried in the pattern's order. */
  function MatchAt(s: string): (k: nat)
    ensures k <= |s|
  {
    var code := Delimited(s, "`", "`", "`");
    var strong := Delimited(s, "**", "**", "*");
    var link := LinkLength(s);
    if code > 0 then code
    else if strong > 0 then strong
    else if link > 0 then link
    else Delimited(s, "*", "*", "*\n")
  }

  /** Which alternative matched shows in the first characters. */
  lemma MatchForm(piece: string)
    requires MatchAt(piece) == |piece| > 0
    ensures "`" <= piece ==> Delimited(piece, "`", "`", "`") == |piece| >= 3
    ensures "**" <= piece ==> Delimited(piece, "**", "**", "*") == |piece| >= 5
    ensures "[" <= piece ==> LinkLength(piece) == |piece| >= 5
    ensures !("`" <= piece) && !("**" <= piece) && !("[" <= piece) ==>
      "*" <= piece && Delimited(piece, "*", "*", "*\n") == |piece| >= 3
  {
    if "**" <= piece {
      assert piece[1..][0] == piece[1] == '*';
      assert Span(piece[1..], "*\n") == 0;
    }
    assert "`" <= piece ==> piece[0] == '`';
    assert "*" <= piece || "**" <= piece ==> piece[0] == '*';
    assert "[" <= piece ==> piece[0] == '[';
  }

  function Find(s: string, part: string): (i: nat)
    ensures i <= |s|
  {
    if s == "" || part <= s then 0 else 1 + Find(s[1..], part)
  }

  /** `s` without its first `a` and its last `b` characters. */
  function Inside(s: string, a: nat, b: nat): string {
    if a + b <= |s| then s[a..|s| - b] else ""
  }

  /** The token of one matched piece; a link that may not be one stays text. */
  function TokenOf(piece: string): Inline {
    if "`" <= piece then Code(Inside(piece, 1, 1))
    else if "**" <= piece then Strong(Inside(piece, 2, 2))
    else if "[" <= piece then
      var split := Find(piece, "](");
      var href := SafeHref(Inside(piece, split + 2, 1));
      if href == None then Text(piece) else Link(Inside(piece, 1, |piece| - split), href.value)
    else Em(Inside(piece, 1, 1))
  }

  lemma FindAt(s: string, part: string, k: nat)
    requires part != ""
    requires k < |s| && part <= s[k..]
    requires forall i :: 0 <= i < k ==> s[i] != part[0]
    ensures Find(s, part) == k
  {
    if k > 0 {
      assert s[1..][k - 1..] == s[k..];
      FindAt(s[1..], part, k - 1);
    }
  }

  lemma DelimitedParts(s: string, open: string, close: string, stops: string, k: nat)
    requires Delimited(s, open, close, stops) == k > 0
    ensures |open| + |close| < k && open <= s && s[k - |close|..k] == close
    ensures forall i :: |open| <= i < k - |close| ==> s[i] !in stops
  {
    var tail := s[|open|..];
    var n := Span(tail, stops);
    assert s[|open| + n..][..|close|] == s[|open| + n..k];
    assert forall i :: |open| <= i < k - |close| ==> s[i] == tail[i - |open|];
  }

  /** The text and the target of a link, inside its piece. */
  lemma LinkFound(piece: string, k: nat, target: string)
    requires LinkLength(piece) == |piece| > 0
    requires k == Delimited(piece, "[", "](", "]") - 2 && target == piece[k + 2..]
    ensures Find(piece, "](") == k > 1 && piece[0] == '['
    ensures forall i :: 1 <= i < k ==> piece[i] != ']'
    ensures k + 2 < |piece| && |target| > 1 && target[|target| - 1] == ')'
    ensures forall i :: 0 <= i < |target| - 1 ==> target[i] != ')'
  {
    DelimitedParts(piece, "[", "](", "]", k + 2);
    TakeOfDrop(piece, k, 2);
    FindAt(piece, "](", k);
    DelimitedParts(target, "", ")", ")", |target|);
  }

  lemma TakeOfDrop(s: string, k: nat, n: nat)
    requires k + n <= |s|
    ensures s[k..][..n] == s[k..k + n]
  {
  }

  /** The pattern of the inline rules. */
  function Rules(): (p: Pattern)
    ensures Fits(p)
  {
    Pattern((s: string) => MatchAt(s), (piece: string) => TokenOf(piece))
  }

  method ParseInline(text: string) returns (tokens: seq<Inline>)
    ensures tokens == Scan(Rules(), text, [])
  {
    tokens := Tokenise(Rules(), text);
  }

  /* ---- the pattern, as a language ---- */

  predicate Enclosed(piece: string, open: string, close: string, stops: string) {
    && |piece| > |open| + |close|
    && open <= piece
    && close == piece[|piece| - |close|..]
    && forall i :: |open| <= i < |piece| - |close| ==> piece[i] !in stops
  }

  lemma DelimitedExactly(s: string, open: string, close: string, stops: string, k: nat)
    requires close != "" && close[0] in stops && k <= |s|
    ensures Enclosed(s[..k], open, close, stops) <==> Delimited(s, open, close, stops) == k > 0
  {
    var piece := s[..k];
    if Enclosed(piece, open, close, stops) {
      var m := k - |close|;
      assert open <= s;
      var tail := s[|open|..];
      var n := Span(tail, stops);
      assert forall i :: |open| <= i < m ==> piece[i] == s[i] == tail[i - |open|];
      assert piece[m..][0] == piece[m] == s[m] == tail[m - |open|];
      assert n == m - |open|;
      assert piece[m..] == s[m..][..|close|];
    }
    if Delimited(s, open, close, stops) == k > 0 {
      var tail := s[|open|..];
      var n := Span(tail, stops);
      assert k == |open| + n + |close|;
      assert piece[|open| + n..] == s[|open| + n..][..|close|] == close;
      assert forall i :: |open| <= i < k - |close| ==> piece[i] == tail[i - |open|];
    }
  }

  predicate LinkPiece(piece: string) {
    exists a :: 0 <= a <= |piece| && Enclosed(piece[..a], "[", "](", "]") && Enclosed(piece[a..], "", ")", ")")
  }

  /** One of the four forms the pattern lists. */
  predicate Markup(piece: string) {
    || Enclosed(piece, "`", "`", "`")
    || Enclosed(piece, "**", "**", "*")
    || LinkPiece(piece)
    || Enclosed(piece, "*", "*", "*\n")
  }

  lemma LinkPieceMatches(s: string, k: nat, a: nat)
    requires a <= k <= |s|
    requires Enclosed(s[..a], "[", "](", "]") && Enclosed(s[a..][..k - a], "", ")", ")")
    ensures LinkLength(s) == k > 0
  {
    DelimitedExactly(s, "[", "](", "]", a);
    DelimitedExactly(s[a..], "", ")", ")", k - a);
    LinkLengthIs(s, a, k - a);
  }

  lemma LinkLengthIs(s: string, a: nat, b: nat)
    requires Delimited(s, "[", "](", "]") == a > 0 && Delimited(s[a..], "", ")", ")") == b > 0
    ensures LinkLength(s) == a + b
  {
  }

  lemma LinkMatchIsPiece(s: string, k: nat, a: nat, b: nat)
    requires LinkLength(s) == k == a + b > 0 && a == Delimited(s, "[", "](", "]")
    ensures Enclosed(s[..a], "[", "](", "]") && Enclosed(s[a..][..b], "", ")", ")")
  {
    DelimitedExactly(s, "[", "](", "]", a);
    DelimitedExactly(s[a..], "", ")", ")", b);
  }

  lemma Prefixes(s: string, a: nat, k: nat)
    requires a <= k <= |s|
    ensures s[..k][..a] == s[..a] && s[..k][a..] == s[a..][..k - a]
  {
  }

  lemma LinkExactly(s: string, k: nat)
    requires k <= |s|
    ensures LinkPiece(s[..k]) <==> LinkLength(s) == k > 0
  {
    var piece := s[..k];
    if LinkPiece(piece) {
      var a :| 0 <= a <= |piece| && Enclosed(piece[..a], "[", "](", "]") && Enclosed(piece[a..], "", ")", ")");
      Prefixes(s, a, k);
      LinkPieceMatches(s, k, a);
    }
    if LinkLength(s) == k > 0 {
      var a := Delimited(s, "[", "](", "]");
      Prefixes(s, a, k);
      LinkMatchIsPiece(s, k, a, k - a);
    }
  }

  /** The scanner finds a match exactly where the pattern has one, and there is only one: each
      character class leaves out the character its terminator starts with. */
  lemma MatchExactly(s: string, k: nat)
    requires k <= |s|
    ensures Markup(s[..k]) <==> MatchAt(s) == k > 0
  {
    DelimitedExactly(s, "`", "`", "`", k);
    DelimitedExactly(s, "**", "**", "*", k);
    LinkExactly(s, k);
    DelimitedExactly(s, "*", "*", "*\n", k);
    if Delimited(s, "**", "**", "*") > 0 {
      assert s[1] == '*';
      assert s[1..][0] == '*';
      assert Span(s[1..], "*\n") == 0;
    }
  }

  lemma MatchOfMatch(s: string)
    ensures MatchAt(s) > 0 ==> MatchAt(s[..MatchAt(s)]) == MatchAt(s)
  {
    var k := MatchAt(s);
    MatchExactly(s, k);
    assert s[..k][..k] == s[..k];
    MatchExactly(s[..k], k);
  }
}
