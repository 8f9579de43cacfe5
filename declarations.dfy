/** The test that decides whether the line after a run of `///` comments
    declares a non-private member (scripts/validate-docs.py:114-126): eleven
    `re.search` patterns, all anchored at the start of the line and all
    opening with `^\s*(public|internal|protected|protected\s+internal)\s+`.
    Each pattern is written out below as a predicate over the line; where a
    pattern has a choice (an optional group, how much of a `\s+` or a `.*`
    to take), the predicate quantifies over the choices, so it holds exactly
    when some way of matching succeeds. */
module Declarations {
  import opened Text
  import opened Wrappers

  const Visibilities: seq<string> := ["public", "internal", "protected"]

  /** `[k]` when `line[k]` is whitespace, else `[]`. */
  function SpaceAt(line: string, k: nat): (ks: seq<nat>)
    ensures forall x :: x in ks ==> x == k && k < |line| && IsSpace(line[k])
  {
    if k < |line| && IsSpace(line[k]) then [k] else []
  }

  /** The positions just after the visibility group of the prefix
      `^\s*(public|internal|protected|protected\s+internal)` at which the
      mandatory `\s+` can start: at most two, because `protected internal`
      also reads as `protected` followed by more text. */
  function VisibilityEnds(line: string): (ks: seq<nat>)
    ensures forall k :: k in ks ==> k < |line| && IsSpace(line[k])
  {
    var i := SkipSpace(line, 0);
    var single :=
      if LitAt(line, i, "public") then SpaceAt(line, i + 6)
      else if LitAt(line, i, "internal") then SpaceAt(line, i + 8)
      else if LitAt(line, i, "protected") then SpaceAt(line, i + 9)
      else [];
    var pair :=
      if LitAt(line, i, "protected") && i + 9 < |line| && IsSpace(line[i + 9]) then
        var j := SkipSpace(line, i + 9);
        if LitAt(line, j, "internal") then SpaceAt(line, j + 8) else []
      else [];
    single + pair
  }

  /** `kw\s+` at `i`: where the next token starts, if `kw` and at least one
      whitespace character are there. */
  function AfterKeyword(s: string, i: nat, kw: string): (r: Option<nat>)
    requires i <= |s|
    ensures r.Some? ==> i + |kw| < r.value <= |s| && LitAt(s, i, kw)
  {
    if LitAt(s, i, kw) && i + |kw| < |s| && IsSpace(s[i + |kw|])
    then Some(SkipSpace(s, i + |kw|)) else None
  }

  /** The positions reachable from `i` through an optional group `(?:kw\s+)?`. */
  function Optional(s: string, i: nat, kw: string): (ps: seq<nat>)
    requires i <= |s|
    ensures i in ps
    ensures forall p :: p in ps ==> i <= p <= |s|
  {
    match AfterKeyword(s, i, kw)
    case Some(p) => [i, p]
    case None => [i]
  }

  /** A chain of keywords, each followed by whitespace: `kw1\s+kw2\s+...`. */
  function AfterKeywords(s: string, i: nat, kws: seq<string>): (r: Option<nat>)
    requires i <= |s|
    ensures r.Some? ==> i <= r.value <= |s|
    decreases |kws|
  {
    if |kws| == 0 then Some(i)
    else match AfterKeyword(s, i, kws[0])
      case Some(p) => AfterKeywords(s, p, kws[1..])
      case None => None
  }

  /** `\w+\s*c` at `i`. */
  predicate WordThen(s: string, i: nat, c: char)
    requires i <= |s|
  {
    var n := SkipWord(s, i);
    var m := SkipSpace(s, n);
    n > i && m < |s| && s[m] == c
  }

  /** `\w+\s+operator` at `i`. */
  predicate WordThenOperator(s: string, i: nat)
    requires i <= |s|
  {
    var n := SkipWord(s, i);
    n > i && n < |s| && IsSpace(s[n]) && LitAt(s, SkipSpace(s, n), "operator")
  }

  /** `keywords` followed by `operator` at `i`. */
  predicate KeywordsThenOperator(s: string, i: nat, kws: seq<string>)
    requires i <= |s|
  {
    var r := AfterKeywords(s, i, kws);
    r.Some? && LitAt(s, r.value, "operator")
  }

  // The eleven recognizers, in source order. `k` is where the `\s+` after
  // the visibility starts; `b` is where the token after that whitespace starts.

  /** `\s(\w+)\s*\(` at `j`: the last whitespace character before a call. */
  predicate CallAt(line: string, j: nat)
    requires j < |line|
  {
    IsSpace(line[j]) && WordThen(line, j + 1, '(')
  }

  /** 1: `.*\s+(\w+)\s*\(`, a method or anything that reads as a call. */
  predicate CallShape(line: string, k: nat)
    requires k < |line|
  {
    exists j :: k < j < |line| && CallAt(line, j)
  }

  /** 2: `(?:static\s+)?(\w+)\s*\{`, a property without a written type. */
  predicate PropertyShape(line: string, b: nat)
    requires b <= |line|
  {
    exists p :: p in Optional(line, b, "static") && WordThen(line, p, '{')
  }

  /** 3: `(?:static\s+)?(?:readonly\s+)?(\w+)\s+(\w+)\s*\{`, a typed property. */
  predicate TypedPropertyShape(line: string, b: nat)
    requires b <= |line|
  {
    exists p, q :: p in Optional(line, b, "static") && q in Optional(line, p, "readonly")
      && var n := SkipWord(line, q);
         n > q && n < |line| && IsSpace(line[n]) && WordThen(line, SkipSpace(line, n), '{')
  }

  /** 4: `(?:static\s+)?(?:class|struct|interface|enum)\s+(\w+)`, a type. */
  predicate TypeShape(line: string, b: nat)
    requires b <= |line|
  {
    exists p, kw :: p in Optional(line, b, "static") && kw in ["class", "struct", "interface", "enum"]
      && var r := AfterKeyword(line, p, kw);
         r.Some? && r.value < |line| && IsWordChar(line[r.value])
  }

  /** 5 to 8: conversion operators, with and without `static`. */
  predicate ConversionOperatorShape(line: string, b: nat)
    requires b <= |line|
  {
    KeywordsThenOperator(line, b, ["implicit"])
    || KeywordsThenOperator(line, b, ["explicit"])
    || KeywordsThenOperator(line, b, ["static", "implicit"])
    || KeywordsThenOperator(line, b, ["static", "explicit"])
  }

  /** 9 and 10: `static\s+\w+\s+operator` and `\w+\s+operator`. */
  predicate TypedOperatorShape(line: string, b: nat)
    requires b <= |line|
  {
    (match AfterKeyword(line, b, "static")
     case Some(p) => WordThenOperator(line, p)
     case None => false)
    || WordThenOperator(line, b)
  }

  /** 11: `(?:static\s+)?(?:\w+\s+)?operator`. */
  predicate AnyOperatorShape(line: string, b: nat)
    requires b <= |line|
  {
    exists p :: p in Optional(line, b, "static")
      && (LitAt(line, p, "operator") || WordThenOperator(line, p))
  }

  /** Some recognizer matches with the visibility group ending at `k`. */
  predicate RecognizedAt(line: string, k: nat)
    requires k < |line|
  {
    var b := SkipSpace(line, k);
    CallShape(line, k) || PropertyShape(line, b) || TypedPropertyShape(line, b)
    || TypeShape(line, b) || ConversionOperatorShape(line, b)
    || TypedOperatorShape(line, b) || AnyOperatorShape(line, b)
  }

  /** The line declares a non-private member, as far as the eleven patterns
      can tell. */
  predicate Qualifies(line: string) {
    exists k :: k in VisibilityEnds(line) && RecognizedAt(line, k)
  }

  /** After its leading whitespace, the line starts with `public`,
      `internal` or `protected` followed by whitespace. */
  predicate StartsWithVisibility(line: string) {
    var i := SkipSpace(line, 0);
    exists v :: v in Visibilities && LitAt(line, i, v) && i + |v| < |line| && IsSpace(line[i + |v|])
  }

  /** Every recognizer starts with the visibility prefix, so a line whose
      first token is anything else (a blank line, `private`, an attribute,
      another comment) never qualifies. */
  lemma QualifiesHasVisibility(line: string)
    ensures Qualifies(line) ==> StartsWithVisibility(line)
  {
    if Qualifies(line) {
      var i := SkipSpace(line, 0);
      var k :| k in VisibilityEnds(line) && RecognizedAt(line, k);
      if LitAt(line, i, "public") {
        assert "public" in Visibilities;
      } else if LitAt(line, i, "internal") {
        assert "internal" in Visibilities;
      } else {
        assert LitAt(line, i, "protected");
        assert "protected" in Visibilities;
      }
    }
  }

  /** Recognizers 5 to 10 add nothing to the eleventh: any operator line
      they accept, `(?:static\s+)?(?:\w+\s+)?operator` accepts too. */
  lemma OperatorRecognizersSubsumed(line: string, b: nat)
    requires b <= |line|
    ensures ConversionOperatorShape(line, b) || TypedOperatorShape(line, b) ==> AnyOperatorShape(line, b)
  {
    var opt := Optional(line, b, "static");
    if KeywordsThenOperator(line, b, ["implicit"]) || KeywordsThenOperator(line, b, ["explicit"]) {
      var w := if KeywordsThenOperator(line, b, ["implicit"]) then "implicit" else "explicit";
      KeywordOperatorIsWordOperator(line, b, w);
      assert b in opt && WordThenOperator(line, b);
    } else if KeywordsThenOperator(line, b, ["static", "implicit"]) || KeywordsThenOperator(line, b, ["static", "explicit"]) {
      var w := if KeywordsThenOperator(line, b, ["static", "implicit"]) then "implicit" else "explicit";
      var p := AfterKeyword(line, b, "static").value;
      assert AfterKeywords(line, b, ["static", w]) == AfterKeywords(line, p, [w]);
      KeywordOperatorIsWordOperator(line, p, w);
      assert p in opt && WordThenOperator(line, p);
    } else if TypedOperatorShape(line, b) {
      if WordThenOperator(line, b) {
        assert b in opt;
      } else {
        var p := AfterKeyword(line, b, "static").value;
        assert p in opt;
      }
    }
  }

  /** `kw\s+operator` with an all-letter keyword is a case of `\w+\s+operator`. */
  lemma KeywordOperatorIsWordOperator(line: string, i: nat, kw: string)
    requires i <= |line|
    requires kw == "implicit" || kw == "explicit"
    requires KeywordsThenOperator(line, i, [kw])
    ensures WordThenOperator(line, i)
  {
    assert [kw][1..] == [];
    assert AfterKeyword(line, i, kw).Some?;
    var p := AfterKeyword(line, i, kw).value;
    assert AfterKeywords(line, i, [kw]) == AfterKeywords(line, p, []) == Some(p);
    assert IsSpace(line[i + |kw|]);
    assert line[i..i + |kw|] == kw;
    forall t | i <= t < i + |kw| ensures IsWordChar(line[t]) {
      assert line[t] == kw[t - i];
    }
    SkipWordOver(line, i, i + |kw|);
  }

  /** `SkipWord` runs to the first non-word character. */
  lemma {:induction false} SkipWordOver(s: string, i: nat, n: nat)
    requires i <= n < |s|
    requires forall t :: i <= t < n ==> IsWordChar(s[t])
    requires !IsWordChar(s[n])
    ensures SkipWord(s, i) == n
    decreases n - i
  {
    if i < n {
      SkipWordOver(s, i + 1, n);
    }
  }
}
