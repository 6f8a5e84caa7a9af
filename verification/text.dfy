/** The two string operations the entry filter relies on: ASCII lower-casing
    (`String.prototype.toLowerCase`) and substring search
    (`String.prototype.includes`). */
module Text {

  /** Lower-cases one ASCII letter and leaves every other character alone. */
  function LowerChar(c: char): char {
    if 'A' <= c <= 'Z' then (c as int + 32) as char else c
  }

  /** Lower-cases a string character by character. */
  function Lower(s: string): (r: string)
    ensures |r| == |s|
    ensures forall i :: 0 <= i < |s| ==> r[i] == LowerChar(s[i])
  {
    seq(|s|, i requires 0 <= i < |s| => LowerChar(s[i]))
  }

  /** `pat` occurs in `s` starting at position `i`. */
  predicate OccursAt(s: string, pat: string, i: int) {
    0 <= i && i + |pat| <= |s| && s[i..i + |pat|] == pat
  }

  /** Substring search, scanning `s` from the left. It holds exactly when
      `pat` occurs somewhere in `s`. */
  function Includes(s: string, pat: string): (r: bool)
    ensures r <==> exists i :: OccursAt(s, pat, i)
    decreases |s|
  {
    if |s| < |pat| then
      assert forall i :: !OccursAt(s, pat, i);
      false
    else if s[..|pat|] == pat then
      assert OccursAt(s, pat, 0);
      true
    else
      var rest := Includes(s[1..], pat);
      ShiftOccurrence(s, pat);
      rest
  }

  /** An occurrence in `s` past its first position is an occurrence in
      `s[1..]`, one position earlier, and conversely. */
  lemma ShiftOccurrence(s: string, pat: string)
    requires |s| >= 1
    requires !OccursAt(s, pat, 0)
    ensures (exists i :: OccursAt(s, pat, i)) <==> (exists i :: OccursAt(s[1..], pat, i))
  {
    forall i | OccursAt(s, pat, i)
      ensures OccursAt(s[1..], pat, i - 1)
    {
      assert i != 0;
      assert s[1..][i - 1..i - 1 + |pat|] == s[i..i + |pat|];
    }
    forall i | OccursAt(s[1..], pat, i)
      ensures OccursAt(s, pat, i + 1)
    {
      assert s[1..][i..i + |pat|] == s[i + 1..i + 1 + |pat|];
    }
  }
}
