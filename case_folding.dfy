/** ASCII case folding, as `re.IGNORECASE` applies it to the placeholder
    patterns (scripts/validate-docs.py:143): two texts that differ only in
    the case of their letters agree on every literal and whitespace test. */
module CaseFolding {
  import opened Text
  import opened Placeholders

  /** Lower-cases every ASCII letter of `t`. */
  function LowerAll(t: string): (r: string)
    ensures |r| == |t| && forall k :: 0 <= k < |t| ==> r[k] == Lower(t[k])
  {
    seq(|t|, k requires 0 <= k < |t| => Lower(t[k]))
  }

  /** `t` and `u` differ at most in the case of their ASCII letters. */
  predicate SameUpToCase(t: string, u: string) {
    |t| == |u|
    && forall k :: 0 <= k < |t| ==> Lower(u[k]) == Lower(t[k]) && IsSpace(u[k]) == IsSpace(t[k])
  }

  lemma LowerAllSameUpToCase(t: string)
    ensures SameUpToCase(t, LowerAll(t))
  {
    var u := LowerAll(t);
    forall k | 0 <= k < |t| ensures Lower(u[k]) == Lower(t[k]) && IsSpace(u[k]) == IsSpace(t[k]) {
      LowerIdempotent(t[k]);
      LowerKeepsSpace(t[k]);
    }
  }

  /** One step of `WordsAt`: the first piece, a whitespace run, the rest. */
  lemma WordsAtUnfold(t: string, i: nat, words: seq<string>)
    requires |words| > 1
    ensures WordsAt(t, i, words)
            == (LitAtIgnoreCase(t, i, words[0]) && i + |words[0]| < |t| && IsSpace(t[i + |words[0]|])
                && WordsAt(t, SkipSpace(t, i + |words[0]|), words[1..]))
  {
  }

  lemma SpaceIgnoresCase(t: string, u: string, e: nat)
    requires SameUpToCase(t, u) && e < |t|
    ensures IsSpace(u[e]) == IsSpace(t[e])
  {
  }

  lemma LitAtIgnoresCase(t: string, u: string, i: nat, lit: string)
    requires SameUpToCase(t, u)
    ensures LitAtIgnoreCase(u, i, lit) == LitAtIgnoreCase(t, i, lit)
  {
  }

  lemma LowerIdempotent(c: char)
    ensures Lower(Lower(c)) == Lower(c)
  {
  }

  lemma LowerKeepsSpace(c: char)
    ensures IsSpace(Lower(c)) == IsSpace(c)
  {
  }

  lemma {:induction false} SkipSpaceIgnoresCase(t: string, u: string, e: nat)
    requires SameUpToCase(t, u)
    requires e <= |t|
    ensures SkipSpace(u, e) == SkipSpace(t, e)
    decreases |t| - e
  {
    if e < |t| {
      SkipSpaceIgnoresCase(t, u, e + 1);
    }
  }
}
