/** White space as JavaScript's `trim` and `\s` see it. */
module Whitespace {

  predicate IsSpace(ch: char) {
    ch == ' ' || '\t' <= ch <= '\r' || ch == '\U{00a0}' || ch == '\U{1680}'
    || '\U{2000}' <= ch <= '\U{200a}' || ch == '\U{2028}' || ch == '\U{2029}' || ch == '\U{202f}'
    || ch == '\U{205f}' || ch == '\U{3000}' || ch == '\U{feff}'
  }

  /** The number of blanks a text begins with. */
  function Blanks(s: string): (n: nat)
    ensures n <= |s| && (forall i :: 0 <= i < n ==> IsSpace(s[i])) && (n < |s| ==> !IsSpace(s[n]))
  {
    if s != "" && IsSpace(s[0]) then 1 + Blanks(s[1..]) else 0
  }

  function TrimStart(s: string): string {
    s[Blanks(s)..]
  }

  function TrimEnd(s: string): (r: string)
    ensures |r| <= |s| && r == s[..|r|] && (r != "" ==> !IsSpace(r[|r| - 1]))
    ensures forall i {:trigger IsSpace(s[i])} :: |r| <= i < |s| ==> IsSpace(s[i])
  {
    if s != "" && IsSpace(s[|s| - 1]) then
      var r := TrimEnd(s[..|s| - 1]);
      assert s[..|s| - 1][..|r|] == s[..|r|];
      r
    else s
  }

  function Trim(s: string): string {
    TrimEnd(TrimStart(s))
  }

  /** Neither end is white space. */
  predicate Trimmed(s: string) {
    s != "" ==> !IsSpace(s[0]) && !IsSpace(s[|s| - 1])
  }

  lemma TrimIsTrimmed(s: string)
    ensures Trimmed(Trim(s)) && (Trim(s) == "" <==> forall i {:trigger IsSpace(s[i])} :: 0 <= i < |s| ==> IsSpace(s[i]))
    ensures Trimmed(s) ==> Trim(s) == s
  {
    var t := TrimStart(s);
    if t != "" {
      var k := |s| - |t|;
      assert t[0] == s[k];
      assert !IsSpace(t[0]);
    }
  }
}
