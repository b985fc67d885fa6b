/** The string functions that the broker uses. */
module GoStrings {

  /** `strings.ReplaceAll` for a non-empty pattern: left to right, without overlaps. */
  function ReplaceAll(s: string, pattern: string, replacement: string): string
    requires pattern != ""
  {
    if |s| < |pattern| then s
    else if s[..|pattern|] == pattern then replacement + ReplaceAll(s[|pattern|..], pattern, replacement)
    else [s[0]] + ReplaceAll(s[1..], pattern, replacement)
  }

  function TrimLeft(s: string, cut: string): string {
    if s != "" && s[0] in cut then TrimLeft(s[1..], cut) else s
  }

  function TrimRight(s: string, cut: string): string {
    if s != "" && s[|s| - 1] in cut then TrimRight(s[..|s| - 1], cut) else s
  }

  /** `strings.TrimFunc` for the characters of `cut`. */
  function Trim(s: string, cut: string): string { TrimRight(TrimLeft(s, cut), cut) }

  /** Replacing one character by one character works position by position. */
  lemma {:induction false} ReplaceOneByOne(s: string, c: char, d: char)
    ensures var r := ReplaceAll(s, [c], [d]);
      |r| == |s| && forall i | 0 <= i < |s| :: r[i] == if s[i] == c then d else s[i]
  {
    if s != "" {
      assert s[..1] == [s[0]];
      ReplaceOneByOne(s[1..], c, d);
    }
  }
}
