/** The two in-stock signals the Target monitor looks for: a structured-data
    (JSON) availability flag in the page markup, and a purchase phrase in the
    text of the page's buttons. Each signal has a declarative definition and an
    executable scanner, with a lemma tying the two together. */
module Patterns {
  import opened Text

  /** A case-insensitive pattern `"key"\s*:\s*"<prefix><value>"` where the
      prefix is one of `prefixes` (the empty prefix makes it optional). */
  datatype JsonFlag = JsonFlag(key: string, prefixes: seq<string>, value: string)
  {
    /** The quoted key that opens a match. */
    function Opening(): string {
      "\"" + key + "\""
    }

    /** The text allowed after the opening quote of the value when prefix `t` is used. */
    function Tail(t: nat): string
      requires t < |prefixes|
    {
      prefixes[t] + value + "\""
    }
  }

  /** `"availability"\s*:\s*"(?:https?://schema\.org/)?InStock"`, case-insensitive. */
  const Availability: JsonFlag :=
    JsonFlag("availability", ["", "http://schema.org/", "https://schema.org/"], "InStock")

  /** `"availabilityStatus"\s*:\s*"IN_STOCK"`, case-insensitive. */
  const AvailabilityStatus: JsonFlag :=
    JsonFlag("availabilityStatus", [""], "IN_STOCK")

  /** The phrases that mark an enabled purchase button. */
  const PurchasePhrases: seq<string> := ["add to cart", "ship it", "pick up"]

  // ---------------------------------------------------------------------
  // Declarative meaning

  /** A match of `f` starts at `i`, with the colon at `p`, the value's opening
      quote at `q` and prefix number `t`. */
  ghost predicate JsonShape(s: string, f: JsonFlag, i: nat, p: nat, q: nat, t: nat) {
    && FoldAt(s, i, f.Opening())
    && AllWs(s, i + |f.Opening()|, p) && p < |s| && s[p] == ':'
    && AllWs(s, p + 1, q) && q < |s| && s[q] == '"'
    && t < |f.prefixes| && FoldAt(s, q + 1, f.Tail(t))
  }

  ghost predicate MatchesAt(s: string, f: JsonFlag, i: nat) {
    exists p: nat, q: nat, t: nat :: JsonShape(s, f, i, p, q, t)
  }

  /** The regular expression of `f` finds a match somewhere in `s`. */
  ghost predicate Matches(s: string, f: JsonFlag) {
    exists i: nat :: MatchesAt(s, f, i)
  }

  /** `phrase` occurs in `text`, ignoring case. */
  ghost predicate Says(text: string, phrase: string) {
    exists j: nat :: FoldAt(text, j, phrase)
  }

  /** Some purchase phrase occurs in `text`, ignoring case. */
  ghost predicate SaysPurchasable(text: string) {
    exists k :: 0 <= k < |PurchasePhrases| && Says(text, PurchasePhrases[k])
  }

  // ---------------------------------------------------------------------
  // Scanners

  predicate TailAt(s: string, f: JsonFlag, k: nat) {
    exists t :: 0 <= t < |f.prefixes| && FoldAt(s, k, f.Tail(t))
  }

  /** Tries `f` at position `i`: the opening key, greedy whitespace, a colon,
      greedy whitespace, a quote, then one of the accepted tails. */
  predicate ScanAt(s: string, f: JsonFlag, i: nat) {
    var open := f.Opening();
    && FoldAt(s, i, open)
    && var p := SkipWs(s, i + |open|);
    && p < |s| && s[p] == ':'
    && var q := SkipWs(s, p + 1);
    && q < |s| && s[q] == '"'
    && TailAt(s, f, q + 1)
  }

  /** Greedy whitespace skipping never loses a match: the colon and the quote
      are not whitespace, so the regular expression never needs to backtrack. */
  lemma ScanAtIffMatchesAt(s: string, f: JsonFlag, i: nat)
    ensures ScanAt(s, f, i) <==> MatchesAt(s, f, i)
  {
    if ScanAt(s, f, i) {
      ScanAtGivesShape(s, f, i);
    }
    if MatchesAt(s, f, i) {
      var p: nat, q: nat, t: nat :| JsonShape(s, f, i, p, q, t);
      ShapeGivesScanAt(s, f, i, p, q, t);
    }
  }

  /** A successful scan exhibits the positions of a match. */
  lemma ScanAtGivesShape(s: string, f: JsonFlag, i: nat)
    requires ScanAt(s, f, i)
    ensures MatchesAt(s, f, i)
  {
    var p := SkipWs(s, i + |f.Opening()|);
    var q := SkipWs(s, p + 1);
    var t :| 0 <= t < |f.prefixes| && FoldAt(s, q + 1, f.Tail(t));
    assert JsonShape(s, f, i, p, q, t);
  }

  /** Any match is found by the scan: the greedy skips stop exactly at its colon and quote. */
  lemma ShapeGivesScanAt(s: string, f: JsonFlag, i: nat, p: nat, q: nat, t: nat)
    requires JsonShape(s, f, i, p, q, t)
    ensures ScanAt(s, f, i)
  {
  }

  /** Tries `f` at every position from `i` on, left to right. */
  function ScanFrom(s: string, f: JsonFlag, i: nat): (b: bool)
    requires i <= |s|
    ensures b <==> exists j: nat :: i <= j && MatchesAt(s, f, j)
    decreases |s| - i
  {
    ScanAtIffMatchesAt(s, f, i);
    if ScanAt(s, f, i) then true
    else if i == |s| then false
    else ScanFrom(s, f, i + 1)
  }

  /** `RegExp.prototype.test` for the pattern of `f`. */
  function Test(s: string, f: JsonFlag): (b: bool)
    ensures b <==> Matches(s, f)
  {
    ScanFrom(s, f, 0)
  }

  /** The button test as written: lower-case the text, then look for each phrase. */
  function ButtonsMatch(text: string): (b: bool)
    ensures b <==> SaysPurchasable(text)
  {
    var lowered := LowerStr(text);
    PurchasePhrasesLowered();
    LoweredFindIsCaseInsensitive(text, PurchasePhrases[0]);
    LoweredFindIsCaseInsensitive(text, PurchasePhrases[1]);
    LoweredFindIsCaseInsensitive(text, PurchasePhrases[2]);
    Find(lowered, "add to cart") || Find(lowered, "ship it") || Find(lowered, "pick up")
  }

  lemma PurchasePhrasesLowered()
    ensures PurchasePhrases == ["add to cart", "ship it", "pick up"]
    ensures forall k :: 0 <= k < |PurchasePhrases| ==> IsLowered(PurchasePhrases[k])
  {
  }

  /** Searching the lowered text for a lower-case phrase finds it exactly when
      it occurs in the original text in any ASCII case. */
  lemma LoweredFindIsCaseInsensitive(text: string, phrase: string)
    requires IsLowered(phrase)
    ensures Find(LowerStr(text), phrase) <==> Says(text, phrase)
  {
    forall j: nat
      ensures OccursAt(LowerStr(text), j, phrase) <==> FoldAt(text, j, phrase)
    {
      OccursInLoweredIffFold(text, j, phrase);
    }
  }

  // ---------------------------------------------------------------------
  // The shape of a match, as a decomposition of the text

  /** `a` spells `b` ignoring ASCII case. */
  predicate SameFold(a: string, b: string) {
    |a| == |b| && FoldAt(a, 0, b)
  }

  /** `s` splits into arbitrary text, the key in any case, whitespace, a
      colon, whitespace, a quote, an accepted tail in any case, and more text. */
  ghost predicate JsonForm(s: string, f: JsonFlag, before: string, key: string, w1: string,
                           w2: string, t: nat, tail: string, after: string)
  {
    && s == before + key + w1 + ":" + w2 + "\"" + tail + after
    && SameFold(key, f.Opening())
    && AllWs(w1, 0, |w1|) && AllWs(w2, 0, |w2|)
    && t < |f.prefixes| && SameFold(tail, f.Tail(t))
  }

  /** Every text of the documented shape matches. */
  lemma FormMatches(s: string, f: JsonFlag, before: string, key: string, w1: string,
                    w2: string, t: nat, tail: string, after: string)
    requires JsonForm(s, f, before, key, w1, w2, t, tail, after)
    ensures Matches(s, f)
  {
    var i := |before|;
    var p := i + |key| + |w1|;
    var q := p + 1 + |w2|;
    assert s[i..i + |key|] == key;
    assert s[i + |key|..p] == w1;
    assert s[p] == ':';
    assert s[p + 1..q] == w2;
    assert s[q] == '"';
    assert s[q + 1..q + 1 + |tail|] == tail;
    forall j | 0 <= j < |key| ensures s[i + j] == key[j] {
      assert s[i..i + |key|][j] == s[i + j];
    }
    forall j | i + |key| <= j < p ensures IsWs(s[j]) {
      assert s[i + |key|..p][j - (i + |key|)] == s[j];
    }
    forall j | p + 1 <= j < q ensures IsWs(s[j]) {
      assert s[p + 1..q][j - (p + 1)] == s[j];
    }
    forall j | 0 <= j < |tail| ensures s[q + 1 + j] == tail[j] {
      assert s[q + 1..q + 1 + |tail|][j] == s[q + 1 + j];
    }
    assert JsonShape(s, f, i, p, q, t);
    assert MatchesAt(s, f, i);
  }

  /** Every match has the documented shape. */
  lemma MatchHasForm(s: string, f: JsonFlag)
    requires Matches(s, f)
    ensures exists before, key, w1, w2, t, tail, after :: JsonForm(s, f, before, key, w1, w2, t, tail, after)
  {
    var i: nat :| MatchesAt(s, f, i);
    var p: nat, q: nat, t: nat :| JsonShape(s, f, i, p, q, t);
    var k := i + |f.Opening()|;
    var e := q + 1 + |f.Tail(t)|;
    SplitAround(s, i, k, p, q, e);
    assert SameFold(s[i..k], f.Opening()) by {
      forall j | 0 <= j < |f.Opening()| ensures Lower(s[i..k][j]) == Lower(f.Opening()[j]) {
        assert s[i..k][j] == s[i + j];
      }
    }
    var w1 := s[k..p];
    assert AllWs(w1, 0, |w1|) by {
      forall j | 0 <= j < |w1| ensures IsWs(w1[j]) {
        assert w1[j] == s[k + j];
      }
    }
    var w2 := s[p + 1..q];
    assert AllWs(w2, 0, |w2|) by {
      forall j | 0 <= j < |w2| ensures IsWs(w2[j]) {
        assert w2[j] == s[p + 1 + j];
      }
    }
    assert SameFold(s[q + 1..e], f.Tail(t)) by {
      forall j | 0 <= j < |f.Tail(t)| ensures Lower(s[q + 1..e][j]) == Lower(f.Tail(t)[j]) {
        assert s[q + 1..e][j] == s[q + 1 + j];
      }
    }
    assert JsonForm(s, f, s[..i], s[i..k], w1, w2, t, s[q + 1..e], s[e..]);
  }

  /** Cutting `s` at a colon position `p` and a quote position `q`. */
  lemma SplitAround(s: string, i: nat, k: nat, p: nat, q: nat, e: nat)
    requires i <= k <= p < q < e <= |s| && s[p] == ':' && s[q] == '"'
    ensures s == s[..i] + s[i..k] + s[k..p] + ":" + s[p + 1..q] + "\"" + s[q + 1..e] + s[e..]
  {
  }
}
