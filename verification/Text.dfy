/** Letter case, over ASCII, as strcasecmp and ToLower see it. */
module Text {
  function Lower(c: char): char {
    if 'A' <= c <= 'Z' then (c as int + 32) as char else c
  }

  function LowerAll(s: string): (t: string)
    ensures |t| == |s|
  {
    seq(|s|, k requires 0 <= k < |s| => Lower(s[k]))
  }

  lemma LowerJoins(a: string, b: string)
    ensures LowerAll(a + b) == LowerAll(a) + LowerAll(b)
  {
    var s, t := LowerAll(a + b), LowerAll(a) + LowerAll(b);
    forall k | 0 <= k < |s| ensures s[k] == t[k] {
    }
  }
}
