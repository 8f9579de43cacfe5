/** The code sample of a run of `///` lines (scripts/validate-docs.py:97-108),
    specified by where its markers are rather than by the scan that builds
    it. The block keeps the lines held when the last `</code>` line was
    reached: those from the last `<code lang="csharp">` line at or before it
    (that line included) up to the first `</code>` line at or after that
    opening (excluded), joined with newlines. */
module CodeSample {
  import opened Text
  import opened Wrappers
  import opened DocLines

  /** Index of the last line of the run that opens a sample. */
  function LastOpen(run: seq<LineInfo>): (o: Option<nat>)
    ensures o.Some? ==> o.value < |run| && run[o.value].opensCode
                        && forall j :: o.value < j < |run| ==> !run[j].opensCode
    ensures o.None? ==> forall j :: 0 <= j < |run| ==> !run[j].opensCode
    decreases |run|
  {
    if |run| == 0 then None
    else if run[|run| - 1].opensCode then Some(|run| - 1)
    else LastOpen(run[..|run| - 1])
  }

  /** Index of the last line of the run that closes a sample. */
  function LastClose(run: seq<LineInfo>): (c: Option<nat>)
    ensures c.Some? ==> c.value < |run| && run[c.value].closesCode
                        && forall j :: c.value < j < |run| ==> !run[j].closesCode
    ensures c.None? ==> forall j :: 0 <= j < |run| ==> !run[j].closesCode
    decreases |run|
  {
    if |run| == 0 then None
    else if run[|run| - 1].closesCode then Some(|run| - 1)
    else LastClose(run[..|run| - 1])
  }

  /** Index of the first closing line at or after `o`, or `|run|`. */
  function FirstClose(run: seq<LineInfo>, o: nat): (c: nat)
    requires o <= |run|
    ensures o <= c <= |run|
    ensures c < |run| ==> run[c].closesCode
    ensures forall j :: o <= j < c ==> !run[j].closesCode
    decreases |run| - o
  {
    if o == |run| || run[o].closesCode then o else FirstClose(run, o + 1)
  }

  /** The captured text of a stretch of lines, in order. */
  function Captures(lines: seq<LineInfo>): seq<string>
    decreases |lines|
  {
    if |lines| == 0 then [] else Captures(lines[..|lines| - 1]) + lines[|lines| - 1].capture
  }

  /** After the run, a sample is open: the last opening line has no closing
      line at or after it. */
  predicate InCode(run: seq<LineInfo>) {
    match LastOpen(run)
    case Some(o) => FirstClose(run, o) == |run|
    case None => false
  }

  /** The lines held after the run: those of the last opened sample, from
      its opening line up to its closing line or the end of the run. */
  function Pending(run: seq<LineInfo>): seq<string> {
    match LastOpen(run)
    case Some(o) => Captures(run[o..FirstClose(run, o)])
    case None => []
  }

  /** The block's `code_content`: the lines held when the last closing line
      was reached, joined with newlines; empty when no line closes. */
  function SampleOf(run: seq<LineInfo>): string {
    match LastClose(run)
    case Some(c) => JoinLines(Pending(run[..c + 1]))
    case None => ""
  }

  // ---- How one more line changes the specification ----

  lemma {:induction false} FirstCloseAppend(run: seq<LineInfo>, x: LineInfo, o: nat)
    requires o <= |run|
    ensures FirstClose(run + [x], o)
         == if FirstClose(run, o) < |run| then FirstClose(run, o)
            else if x.closesCode then |run| else |run| + 1
    decreases |run| - o
  {
    var r := run + [x];
    if o < |run| {
      assert r[o] == run[o];
      if !run[o].closesCode {
        FirstCloseAppend(run, x, o + 1);
      }
    }
  }

  lemma CapturesAppend(lines: seq<LineInfo>, x: LineInfo)
    ensures Captures(lines + [x]) == Captures(lines) + x.capture
  {
    assert (lines + [x])[..|lines|] == lines;
  }

  /** How one more `///` line moves the open/closed state of the sample. */
  lemma InCodeStep(run: seq<LineInfo>, x: LineInfo)
    ensures InCode(run + [x]) == (!x.closesCode && (x.opensCode || InCode(run)))
  {
    var r := run + [x];
    assert r[..|run|] == run;
    if !x.opensCode {
      match LastOpen(run)
      case Some(o) => FirstCloseAppend(run, x, o);
      case None =>
    }
  }

  /** How one more `///` line changes the held lines: an opening line starts
      afresh with itself (nothing if it also closes), a line inside an open
      sample is appended, any other line changes nothing. */
  lemma PendingStep(run: seq<LineInfo>, x: LineInfo)
    ensures Pending(run + [x])
         == if x.opensCode then (if x.closesCode then [] else x.capture)
            else if InCode(run) && !x.closesCode then Pending(run) + x.capture
            else Pending(run)
  {
    var r := run + [x];
    assert r[..|run|] == run;
    if x.opensCode {
      assert r[|run|..|run| + 1] == [x];
      assert Captures([x]) == x.capture by { assert [x][..0] == []; }
    } else {
      match LastOpen(run)
      case Some(o) =>
        FirstCloseAppend(run, x, o);
        var f := FirstClose(run, o);
        assert r[o..f] == run[o..f];
        if f == |run| && !x.closesCode {
          assert r[o..f + 1] == run[o..f] + [x];
          CapturesAppend(run[o..f], x);
        }
      case None =>
    }
  }

  /** How one more `///` line changes the sample: a closing line replaces it
      with the held lines joined (none when the same line opens), any other
      line leaves it alone. */
  lemma SampleStep(run: seq<LineInfo>, x: LineInfo)
    ensures SampleOf(run + [x])
         == if x.closesCode then JoinLines(if x.opensCode then [] else Pending(run))
            else SampleOf(run)
  {
    var r := run + [x];
    assert r[..|run|] == run;
    if x.closesCode {
      assert r[..|run| + 1] == r;
      PendingStep(run, x);
      InCodeStep(run, x);
    } else {
      match LastClose(run)
      case Some(c) =>
        assert r[..c + 1] == run[..c + 1];
      case None =>
    }
  }

  // ---- Properties of the sample ----

  /** No closing line, no sample: an unclosed `<code>` leaves the text empty. */
  lemma UnclosedSampleIsEmpty(run: seq<LineInfo>)
    requires forall j :: 0 <= j < |run| ==> !run[j].closesCode
    ensures SampleOf(run) == ""
  {
  }

  /** When the last closing line also opens a sample, the sample is empty. */
  lemma SameLineSampleIsEmpty(run: seq<LineInfo>, c: nat)
    requires c < |run| && run[c].opensCode && run[c].closesCode
    requires forall j :: c < j < |run| ==> !run[j].closesCode
    ensures SampleOf(run) == ""
  {
    assert LastClose(run) == Some(c);
    var head := run[..c + 1];
    assert head[c] == run[c];
    assert LastOpen(head) == Some(c);
    assert FirstClose(head, c) == c;
    assert head[c..c] == [];
  }

  /** A run with one opening line `o` and one closing line `c` after it
      yields the captured text of lines `o` (included) to `c` (excluded). */
  lemma SingleSample(run: seq<LineInfo>, o: nat, c: nat)
    requires o < c < |run|
    requires forall j :: 0 <= j < |run| ==> (run[j].opensCode <==> j == o)
    requires forall j :: 0 <= j < |run| ==> (run[j].closesCode <==> j == c)
    ensures SampleOf(run) == JoinLines(Captures(run[o..c]))
  {
    assert run[c].closesCode;
    assert LastClose(run) == Some(c);
    var head := run[..c + 1];
    SampleHeld(head, o, c);
    assert head[o..c] == run[o..c];
  }

  /** The lines held at the one closing line `c` are those from the one
      opening line `o` up to it. */
  lemma SampleHeld(head: seq<LineInfo>, o: nat, c: nat)
    requires o < c && |head| == c + 1
    requires forall j :: 0 <= j < |head| ==> (head[j].opensCode <==> j == o)
    requires forall j :: 0 <= j < |head| ==> (head[j].closesCode <==> j == c)
    ensures Pending(head) == Captures(head[o..c])
  {
    assert head[o].opensCode;
    assert LastOpen(head) == Some(o);
    assert head[c].closesCode;
    assert FirstClose(head, o) == c;
  }

  /** Only the last sample counts: lines before an opening line that comes
      at or before the last closing line have no effect on the sample. */
  lemma {:induction false} LastSampleWins(before: seq<LineInfo>, run: seq<LineInfo>, o: nat)
    requires o < |run| && run[o].opensCode
    requires LastClose(run).Some? && o <= LastClose(run).value
    ensures SampleOf(before + run) == SampleOf(run)
    decreases |run|
  {
    var init := run[..|run| - 1];
    var x := run[|run| - 1];
    assert run == init + [x];
    assert before + run == (before + init) + [x];
    SampleStep(before + init, x);
    SampleStep(init, x);
    if x.closesCode {
      if !x.opensCode {
        assert init[o] == run[o];
        HeldShift(before, init);
      }
    } else {
      assert LastClose(run) == LastClose(init);
      assert init[o] == run[o];
      LastSampleWins(before, init, o);
    }
  }

  /** Lines before the last opening line change neither what is held nor
      whether a sample is open. */
  lemma {:induction false} HeldShift(before: seq<LineInfo>, run: seq<LineInfo>)
    requires LastOpen(run).Some?
    ensures Pending(before + run) == Pending(run)
    ensures InCode(before + run) == InCode(run)
    decreases |run|
  {
    var init := run[..|run| - 1];
    var x := run[|run| - 1];
    assert run == init + [x];
    assert before + run == (before + init) + [x];
    PendingStep(before + init, x);
    PendingStep(init, x);
    InCodeStep(before + init, x);
    InCodeStep(init, x);
    if !x.opensCode {
      assert LastOpen(run) == LastOpen(init);
      HeldShift(before, init);
    }
  }
}
