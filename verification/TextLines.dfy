/** Line ends and lines of a text. */
module TextLines {

  const CR := '\r'
  const LF := '\n'

  /** Every CR LF becomes LF, from left to right. */
  function Normalize(s: string): string {
    if s == "" then ""
    else if |s| >= 2 && s[0] == CR && s[1] == LF then [LF] + Normalize(s[2..])
    else [s[0]] + Normalize(s[1..])
  }

  function FirstOf(s: string, ch: char): (i: nat)
    ensures i <= |s|
    ensures i < |s| ==> s[i] == ch
    ensures forall j :: 0 <= j < i ==> s[j] != ch
  {
    if s == "" then 0 else if s[0] == ch then 0 else 1 + FirstOf(s[1..], ch)
  }

  function Lines(s: string): (lines: seq<string>)
    ensures |lines| > 0
    decreases |s|
  {
    var i := FirstOf(s, LF);
    if i == |s| then [s] else [s[..i]] + Lines(s[i + 1..])
  }

  function JoinLines(lines: seq<string>): string
    requires |lines| > 0
  {
    if |lines| == 1 then lines[0] else lines[0] + [LF] + JoinLines(lines[1..])
  }
}
