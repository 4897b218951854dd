/** Character classes and string scanning used by the availability patterns.
    Strings are sequences of Unicode scalar values, as Dafny's `char` is. */
module Text {

  /** The `\s` class of a JavaScript regular expression: the ECMAScript
      WhiteSpace and LineTerminator code points. */
  predicate IsWs(c: char) {
    || c == ' ' || c == '\t' || c == '\n' || c == '\U{000B}' || c == '\U{000C}' || c == '\r'
    || c == '\U{00A0}' || c == '\U{1680}' || ('\U{2000}' <= c <= '\U{200A}')
    || c == '\U{2028}' || c == '\U{2029}' || c == '\U{202F}' || c == '\U{205F}'
    || c == '\U{3000}' || c == '\U{FEFF}'
  }

  /** ASCII case folding: upper-case Latin letters map to lower case, every
      other character to itself. */
  function Lower(c: char): char {
    if 'A' <= c <= 'Z' then (c as int + 32) as char else c
  }

  /** Lowering keeps the length, leaves no upper-case ASCII letter, and
      spells the same text ignoring case. */
  function LowerStr(s: string): (t: string)
    ensures |t| == |s|
    ensures IsLowered(t)
    ensures FoldAt(t, 0, s)
  {
    seq(|s|, i requires 0 <= i < |s| => Lower(s[i]))
  }

  /** `s` has no upper-case ASCII letter, so lowering leaves it alone. */
  predicate IsLowered(s: string) {
    forall i :: 0 <= i < |s| ==> Lower(s[i]) == s[i]
  }

  /** The characters of `s` from position `k` on spell `lit`, ignoring ASCII case. */
  predicate FoldAt(s: string, k: nat, lit: string) {
    && k + |lit| <= |s|
    && forall j :: 0 <= j < |lit| ==> Lower(s[k + j]) == Lower(lit[j])
  }

  /** `lit` occurs in `s` exactly, starting at `k`. */
  predicate OccursAt(s: string, k: nat, lit: string) {
    k + |lit| <= |s| && s[k..k + |lit|] == lit
  }

  ghost predicate Contains(s: string, lit: string) {
    exists k: nat :: OccursAt(s, k, lit)
  }

  /** Every character of `s` in `[lo, hi)` is whitespace. */
  predicate AllWs(s: string, lo: nat, hi: nat) {
    lo <= hi <= |s| && forall j :: lo <= j < hi ==> IsWs(s[j])
  }

  /** The greedy `\s*`: the first position at or after `k` that does not hold whitespace. */
  function SkipWs(s: string, k: nat): (r: nat)
    requires k <= |s|
    ensures k <= r <= |s|
    ensures AllWs(s, k, r)
    ensures r < |s| ==> !IsWs(s[r])
    decreases |s| - k
  {
    if k < |s| && IsWs(s[k]) then SkipWs(s, k + 1) else k
  }

  /** Left-to-right search for `lit` at positions `k` and later. */
  function OccursFrom(s: string, lit: string, k: nat): (b: bool)
    requires k <= |s|
    ensures b <==> exists j: nat :: k <= j && OccursAt(s, j, lit)
    decreases |s| - k
  {
    if OccursAt(s, k, lit) then true
    else if k == |s| then false
    else OccursFrom(s, lit, k + 1)
  }

  /** Executable substring test, `s.includes(lit)`. */
  function Find(s: string, lit: string): (b: bool)
    ensures b <==> Contains(s, lit)
  {
    OccursFrom(s, lit, 0)
  }

  /** Searching the lowered text for a lower-case literal is the same as a
      case-insensitive search of the original text. */
  lemma OccursInLoweredIffFold(s: string, k: nat, lit: string)
    requires IsLowered(lit)
    ensures OccursAt(LowerStr(s), k, lit) <==> FoldAt(s, k, lit)
  {
  }
}
