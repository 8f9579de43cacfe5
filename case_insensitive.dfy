/** The placeholder scan ignores case (scripts/validate-docs.py:143): the
    patterns are searched with `re.IGNORECASE`, so lower-casing the sample
    changes nothing the scan reports. */
module CaseInsensitive {
  import opened Text
  import opened Placeholders
  import opened CaseFolding

  /** The scan ignores case: lower-casing the sample changes nothing it
      reports, so `todo` is caught like `TODO`. */
  lemma CheckIgnoresCase(code: string)
    ensures CheckForPlaceholders(LowerAll(code)) == CheckForPlaceholders(code)
  {
    forall p: Pattern ensures p.MatchesIn(LowerAll(code)) == p.MatchesIn(code) {
      MatchIgnoresCase(p, code);
    }
    SameMatchesSameResult(PlaceholderPatterns, LowerAll(code), code);
  }

  lemma {:induction false} SameMatchesSameResult(ps: seq<Pattern>, a: string, b: string)
    requires forall i, j :: 0 <= i < j < |ps| ==> ps[i].Rank() < ps[j].Rank()
    requires forall p: Pattern :: p.MatchesIn(a) == p.MatchesIn(b)
    ensures MatchingPatterns(ps, a) == MatchingPatterns(ps, b)
  {
    if |ps| > 0 {
      SameMatchesSameResult(ps[1..], a, b);
    }
  }

  lemma MatchIgnoresCase(p: Pattern, t: string)
    ensures p.MatchesIn(LowerAll(t)) == p.MatchesIn(t)
  {
    var u := LowerAll(t);
    LowerAllSameUpToCase(t);
    forall i | 0 <= i <= |t| ensures WordsAt(u, i, p.Words()) == WordsAt(t, i, p.Words()) {
      WordsAtIgnoresCase(t, u, i, p.Words());
    }
    if p.MatchesIn(t) {
      var i :| 0 <= i <= |t| && WordsAt(t, i, p.Words());
      assert WordsAt(u, i, p.Words());
    }
    if p.MatchesIn(u) {
      var i :| 0 <= i <= |u| && WordsAt(u, i, p.Words());
      assert WordsAt(t, i, p.Words());
    }
  }

  lemma {:induction false} WordsAtIgnoresCase(t: string, u: string, i: nat, words: seq<string>)
    requires SameUpToCase(t, u)
    requires |words| > 0
    ensures WordsAt(u, i, words) == WordsAt(t, i, words)
    decreases |words|
  {
    if |words| > 1 && i + |words[0]| < |t| {
      WordsAtIgnoresCase(t, u, SkipSpace(t, i + |words[0]|), words[1..]);
    }
    WordsAtStep(t, u, i, words);
  }

  /** One step of the induction: the first piece and the whitespace run
      after it agree, so the whole match does when the rest does. */
  lemma WordsAtStep(t: string, u: string, i: nat, words: seq<string>)
    requires SameUpToCase(t, u)
    requires |words| > 0
    requires |words| > 1 && i + |words[0]| < |t| ==>
               WordsAt(u, SkipSpace(t, i + |words[0]|), words[1..]) == WordsAt(t, SkipSpace(t, i + |words[0]|), words[1..])
    ensures WordsAt(u, i, words) == WordsAt(t, i, words)
  {
    LitAtIgnoresCase(t, u, i, words[0]);
    if |words| > 1 {
      WordsAtUnfold(t, i, words);
      WordsAtUnfold(u, i, words);
      var e := i + |words[0]|;
      if e < |t| {
        SpaceIgnoresCase(t, u, e);
        SkipSpaceIgnoresCase(t, u, e);
      }
    }
  }
}
