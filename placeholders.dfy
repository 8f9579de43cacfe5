/** The placeholder scan of a code sample (scripts/validate-docs.py:43-49 and
    139-145): five `re.search` patterns, each tried case-insensitively
    against the whole captured sample; the ones that match are reported in
    list order. */
module Placeholders {
  import opened Text

  /** One entry of `PLACEHOLDER_PATTERNS`. */
  datatype Pattern = InvokeTheMemberHere | InvokeMemberHere | Todo | Placeholder | SixDots
  {
    /** The pattern as written in the source, which the warning message quotes. */
    function Source(): string {
      match this
      case InvokeTheMemberHere => "invoke\\s+the\\s+member\\s+here"
      case InvokeMemberHere => "invoke\\s+member\\s+here"
      case Todo => "TODO"
      case Placeholder => "placeholder"
      case SixDots => "\\.\\.\\.\\.\\.\\."
    }

    /** The literal pieces of the pattern, separated in it by `\s+`. The
        escaped dots are literal dots, and there are six of them although
        the comment beside the pattern speaks of five or more. */
    function Words(): (ws: seq<string>)
      ensures |ws| > 0 && forall w :: w in ws ==> |w| > 0
    {
      match this
      case InvokeTheMemberHere => ["invoke", "the", "member", "here"]
      case InvokeMemberHere => ["invoke", "member", "here"]
      case Todo => ["TODO"]
      case Placeholder => ["placeholder"]
      case SixDots => ["......"]
    }

    /** Position of the pattern in `PLACEHOLDER_PATTERNS`. */
    function Rank(): (r: nat)
      ensures r < |PlaceholderPatterns| && PlaceholderPatterns[r] == this
    {
      match this
      case InvokeTheMemberHere => 0
      case InvokeMemberHere => 1
      case Todo => 2
      case Placeholder => 3
      case SixDots => 4
    }

    /** `re.search(pattern, text, re.IGNORECASE)` finds a match. */
    predicate MatchesIn(text: string) {
      exists i :: 0 <= i <= |text| && WordsAt(text, i, Words())
    }
  }

  const PlaceholderPatterns: seq<Pattern> :=
    [InvokeTheMemberHere, InvokeMemberHere, Todo, Placeholder, SixDots]

  /** `lit` occurs at `i` in `t`, ignoring ASCII case. */
  predicate LitAtIgnoreCase(t: string, i: int, lit: string) {
    0 <= i && i + |lit| <= |t| && forall j :: 0 <= j < |lit| ==> Lower(t[i + j]) == Lower(lit[j])
  }

  /** `w1\s+w2\s+...\s+wn` matches at `i`. Each `\s+` runs to the end of the
      whitespace, since the next piece starts with a non-space character. */
  predicate WordsAt(t: string, i: nat, words: seq<string>)
    requires |words| > 0
    decreases |words|
  {
    LitAtIgnoreCase(t, i, words[0])
    && (|words| == 1
        || var e := i + |words[0]|;
           e < |t| && IsSpace(t[e]) && WordsAt(t, SkipSpace(t, e), words[1..]))
  }

  /** The patterns of `ps` that match `code`, in the order of `ps`. */
  function MatchingPatterns(ps: seq<Pattern>, code: string): (found: seq<Pattern>)
    requires forall i, j :: 0 <= i < j < |ps| ==> ps[i].Rank() < ps[j].Rank()
    ensures forall p :: p in found <==> p in ps && p.MatchesIn(code)
    ensures forall i, j :: 0 <= i < j < |found| ==> found[i].Rank() < found[j].Rank()
  {
    if |ps| == 0 then []
    else
      var rest := MatchingPatterns(ps[1..], code);
      RankedTail(ps);
      if ps[0].MatchesIn(code) then [ps[0]] + rest else rest
  }

  /** Every pattern after the first of a rank-ordered list ranks higher. */
  lemma RankedTail(ps: seq<Pattern>)
    requires |ps| > 0
    requires forall i, j :: 0 <= i < j < |ps| ==> ps[i].Rank() < ps[j].Rank()
    ensures forall x :: x in ps[1..] ==> ps[0].Rank() < x.Rank()
  {
    forall x | x in ps[1..] ensures ps[0].Rank() < x.Rank() {
      var k :| 0 <= k < |ps[1..]| && ps[1..][k] == x;
      assert ps[k + 1] == x;
    }
  }

  /** `check_for_placeholders`: every pattern that matches, each once, in
      list order; so at most five. */
  function CheckForPlaceholders(code: string): (found: seq<Pattern>)
    ensures forall p :: p in found <==> p.MatchesIn(code)
    ensures forall i, j :: 0 <= i < j < |found| ==> found[i].Rank() < found[j].Rank()
    ensures |found| <= |PlaceholderPatterns|
  {
    var found := MatchingPatterns(PlaceholderPatterns, code);
    RankedBound(found);
    found
  }

  /** A list strictly ordered by rank has no more entries than there are patterns. */
  lemma RankedBound(found: seq<Pattern>)
    requires forall i, j :: 0 <= i < j < |found| ==> found[i].Rank() < found[j].Rank()
    ensures |found| <= |PlaceholderPatterns|
  {
    if |found| > |PlaceholderPatterns| {
      RankAtLeastIndex(found, |PlaceholderPatterns|);
    }
  }

  lemma {:induction false} RankAtLeastIndex(found: seq<Pattern>, i: nat)
    requires forall i, j :: 0 <= i < j < |found| ==> found[i].Rank() < found[j].Rank()
    requires i < |found|
    ensures found[i].Rank() >= i
  {
    if i > 0 {
      RankAtLeastIndex(found, i - 1);
    }
  }

  /** An empty sample draws no warning. */
  lemma EmptySampleIsClean()
    ensures CheckForPlaceholders("") == []
  {
    forall p: Pattern ensures !p.MatchesIn("") {
      var ws := p.Words();
      assert ws[0] in ws;
    }
  }

  /** Six dots in a row are reported; five are not. */
  lemma SixDotsNotFive()
    ensures SixDots.MatchesIn("......")
    ensures !SixDots.MatchesIn(".....")
  {
    assert WordsAt("......", 0, SixDots.Words());
  }

  /** A lower-case `todo` is reported as the `TODO` pattern. */
  lemma LowerCaseTodo()
    ensures Todo in CheckForPlaceholders("todo")
  {
    assert WordsAt("todo", 0, Todo.Words());
  }
}
