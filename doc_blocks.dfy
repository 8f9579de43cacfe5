/** What `extract_xml_doc_blocks` (scripts/validate-docs.py:72-136) returns,
    stated run by run instead of line by line. The text is split on newlines
    and every line classified; a maximal run of `///` lines becomes a block
    when the line right after it is a non-private declaration, and is
    dropped when that line is anything else or when the text ends inside
    the run. Line numbers in a block are 1-based, as in the source. */
module DocBlocks {
  import opened Text
  import opened DocLines
  import opened CodeSample
  import Declarations

  /** One documented member, as returned by the extractor. The source's
      `member_type` and `member_name` are never assigned there and are left
      out. */
  datatype XmlDocBlock = XmlDocBlock(
    startLine: int,          // line number of the first `///` line
    endLine: int,            // line number of the last `///` line
    hasSummary: bool,
    hasExample: bool,
    hasCodeCsharp: bool,
    codeContent: string,     // the last closed code sample
    memberLine: int)         // line number of the declaration; 0 while the run is open

  /** Index of the first line at or after `i` that is not a `///` line. */
  function RunEnd(F: seq<LineInfo>, i: nat): (e: nat)
    requires i <= |F|
    ensures i <= e <= |F|
    ensures forall j :: i <= j < e ==> F[j].isDoc
    ensures e < |F| ==> !F[e].isDoc
    decreases |F| - i
  {
    if i < |F| && F[i].isDoc then RunEnd(F, i + 1) else i
  }

  /** Some line among `F[s..e]` holds `<summary>`. */
  predicate AnySummary(F: seq<LineInfo>, s: nat, e: nat)
    requires s <= e <= |F|
  {
    exists j :: s <= j < e && F[j].summary
  }

  /** Some line among `F[s..e]` holds `<example>`. */
  predicate AnyExample(F: seq<LineInfo>, s: nat, e: nat)
    requires s <= e <= |F|
  {
    exists j :: s <= j < e && F[j].example
  }

  /** Some line among `F[s..e]` holds `<code lang="csharp">`. */
  predicate AnyCode(F: seq<LineInfo>, s: nat, e: nat)
    requires s <= e <= |F|
  {
    exists j :: s <= j < e && F[j].opensCode
  }

  /** The block built from the `///` lines `F[s..e]`, before its member
      line is known. */
  function OpenBlock(F: seq<LineInfo>, s: nat, e: nat): XmlDocBlock
    requires s <= e <= |F|
  {
    XmlDocBlock(s + 1, e, AnySummary(F, s, e), AnyExample(F, s, e), AnyCode(F, s, e),
                SampleOf(F[s..e]), 0)
  }

  /** The block of the run `F[s..e]`, whose member is declared on line `e`
      (0-based), that is line number `e + 1`. */
  function RunBlock(F: seq<LineInfo>, s: nat, e: nat): XmlDocBlock
    requires s <= e <= |F|
  {
    OpenBlock(F, s, e).(memberLine := e + 1)
  }

  /** `F[s..e]` is a whole run of `///` lines (nothing of the run before
      `s`) and the line after it declares a non-private member. */
  predicate DocumentedRun(F: seq<LineInfo>, s: nat, e: nat) {
    s < e < |F|
    && (s == 0 || !F[s - 1].isDoc)
    && (forall j :: s <= j < e ==> F[j].isDoc)
    && !F[e].isDoc && F[e].declares
  }

  /** The blocks of the runs that start at or after `i`. */
  function BlocksFrom(F: seq<LineInfo>, i: nat): seq<XmlDocBlock>
    requires i <= |F|
    decreases |F| - i
  {
    if i == |F| then []
    else if !F[i].isDoc then BlocksFrom(F, i + 1)
    else
      var e := RunEnd(F, i);
      if e == |F| then []
      else (if F[e].declares then [RunBlock(F, i, e)] else []) + BlocksFrom(F, e + 1)
  }

  /** The result of `extract_xml_doc_blocks(content)`. */
  function ExtractBlocks(content: string): seq<XmlDocBlock> {
    BlocksFrom(ClassifyAll(Split(content)), 0)
  }

  /** The number of lines at or after `i` that declare a non-private member. */
  function Declaring(F: seq<LineInfo>, i: nat): nat
    requires i <= |F|
    decreases |F| - i
  {
    if i == |F| then 0 else (if F[i].declares then 1 else 0) + Declaring(F, i + 1)
  }

  // ---- Run boundaries ----

  /** A run of `///` lines from `s` that stops at `e` ends there. */
  lemma {:induction false} RunEndAt(F: seq<LineInfo>, s: nat, e: nat)
    requires s <= e <= |F|
    requires forall j :: s <= j < e ==> F[j].isDoc
    requires e == |F| || !F[e].isDoc
    ensures RunEnd(F, s) == e
    decreases e - s
  {
    if s < e {
      RunEndAt(F, s + 1, e);
    }
  }

  // ---- Properties of the extracted blocks ----

  /** Every block is the block of a documented run, so it spans at least
      one `///` line, its member line is the line right after its last
      `///` line, and it starts after `i`. */
  lemma {:induction false} BlocksAreDocumentedRuns(F: seq<LineInfo>, i: nat)
    requires i <= |F|
    requires i == 0 || !F[i - 1].isDoc
    ensures forall b :: b in BlocksFrom(F, i) ==> i < b.startLine && IsRunBlock(F, b)
    decreases |F| - i
  {
    if i < |F| {
      if !F[i].isDoc {
        BlocksAreDocumentedRuns(F, i + 1);
      } else {
        var e := RunEnd(F, i);
        if e < |F| {
          BlocksAreDocumentedRuns(F, e + 1);
          BlocksOfRun(F, i);
          forall b | b in BlocksFrom(F, i) ensures i < b.startLine && IsRunBlock(F, b) {
            if b !in BlocksFrom(F, e + 1) {
              RunBlockIsDocumentedRun(F, i, e);
            }
          }
        }
      }
    }
  }

  /** The blocks from the first line of a run that ends before the end of
      the text: that run's block, if its next line declares, then the blocks
      after that line. */
  lemma BlocksOfRun(F: seq<LineInfo>, i: nat)
    requires i < |F| && F[i].isDoc && RunEnd(F, i) < |F|
    ensures var e := RunEnd(F, i);
            BlocksFrom(F, i) == (if F[e].declares then [RunBlock(F, i, e)] else []) + BlocksFrom(F, e + 1)
  {
  }

  /** `b` is the block of a whole run of `///` lines whose next line, its
      member line, declares a non-private member. */
  predicate IsRunBlock(F: seq<LineInfo>, b: XmlDocBlock) {
    1 <= b.startLine <= b.endLine && b.memberLine == b.endLine + 1
    && DocumentedRun(F, b.startLine - 1, b.endLine)
    && b == RunBlock(F, b.startLine - 1, b.endLine)
  }

  /** The block of a whole run that ends before a declaring line. */
  lemma RunBlockIsDocumentedRun(F: seq<LineInfo>, i: nat, e: nat)
    requires i < |F| && F[i].isDoc && (i == 0 || !F[i - 1].isDoc)
    requires e == RunEnd(F, i) && e < |F| && F[e].declares
    ensures var b := RunBlock(F, i, e);
            b.startLine == i + 1 && b.endLine == e && IsRunBlock(F, b)
  {
    var b := RunBlock(F, i, e);
    assert b.startLine == i + 1 && b.endLine == e;
  }

  /** Each block starts after the member line of the one before it. */
  predicate InFileOrder(bs: seq<XmlDocBlock>) {
    forall p, q :: 0 <= p < q < |bs| ==> bs[p].memberLine < bs[q].startLine
  }

  /** Blocks come out in file order and do not overlap. */
  lemma {:induction false} BlocksInFileOrder(F: seq<LineInfo>, i: nat)
    requires i <= |F|
    requires i == 0 || !F[i - 1].isDoc
    ensures InFileOrder(BlocksFrom(F, i))
    decreases |F| - i
  {
    if i < |F| {
      if !F[i].isDoc {
        BlocksInFileOrder(F, i + 1);
      } else {
        var e := RunEnd(F, i);
        if e < |F| {
          var rest := BlocksFrom(F, e + 1);
          BlocksInFileOrder(F, e + 1);
          BlocksAreDocumentedRuns(F, e + 1);
          if F[e].declares {
            var bs := [RunBlock(F, i, e)] + rest;
            forall p, q | 0 <= p < q < |bs| ensures bs[p].memberLine < bs[q].startLine {
              assert bs[q] == rest[q - 1];
              assert rest[q - 1] in rest;
              if p > 0 {
                assert bs[p] == rest[p - 1];
              }
            }
          }
        }
      }
    }
  }

  /** Every documented run yields its block: with the lemma above, the
      blocks are exactly the documented runs. */
  lemma {:induction false} DocumentedRunIsBlock(F: seq<LineInfo>, i: nat, s: nat, e: nat)
    requires DocumentedRun(F, s, e)
    requires i <= s
    requires i == 0 || !F[i - 1].isDoc
    ensures RunBlock(F, s, e) in BlocksFrom(F, i)
    decreases |F| - i
  {
    if !F[i].isDoc {
      DocumentedRunIsBlock(F, i + 1, s, e);
    } else {
      var r := RunEnd(F, i);
      if i == s {
        RunEndAt(F, s, e);
      } else {
        // `i` starts an earlier run, which ends before `s`
        assert r < s;
        DocumentedRunIsBlock(F, r + 1, s, e);
      }
    }
  }

  /** There are no more blocks than declaring lines. */
  lemma {:induction false} BlocksAtMostDeclarations(F: seq<LineInfo>, i: nat)
    requires i <= |F|
    ensures |BlocksFrom(F, i)| <= Declaring(F, i)
    decreases |F| - i
  {
    if i < |F| {
      if !F[i].isDoc {
        BlocksAtMostDeclarations(F, i + 1);
      } else {
        var e := RunEnd(F, i);
        if e < |F| {
          BlocksAtMostDeclarations(F, e + 1);
          DeclaringSplit(F, i, e);
        }
      }
    }
  }

  /** The declaring lines from `i` on include `e`'s and those after it. */
  lemma {:induction false} DeclaringSplit(F: seq<LineInfo>, i: nat, e: nat)
    requires i <= e < |F|
    ensures Declaring(F, i) >= (if F[e].declares then 1 else 0) + Declaring(F, e + 1)
    decreases e - i
  {
    if i < e {
      DeclaringSplit(F, i + 1, e);
    }
  }

  // ---- The same properties, stated on the lines of the text ----

  /** Each extracted block covers a whole run of `///` lines (0-based
      indices `startLine - 1` to `endLine - 1`); its member line is the next
      line, which is not a `///` line and matches one of the declaration
      recognizers, so it starts with a visibility. */
  lemma ExtractedBlockShape(content: string, b: XmlDocBlock)
    requires b in ExtractBlocks(content)
    ensures var lines := Split(content);
            1 <= b.startLine <= b.endLine && b.memberLine == b.endLine + 1 <= |lines|
            && (b.startLine == 1 || !IsDocLine(lines[b.startLine - 2]))
            && (forall j :: b.startLine - 1 <= j < b.endLine ==> IsDocLine(lines[j]))
            && !IsDocLine(lines[b.endLine])
            && Declarations.Qualifies(lines[b.endLine])
            && Declarations.StartsWithVisibility(lines[b.endLine])
  {
    var lines := Split(content);
    var F := ClassifyAll(lines);
    BlocksAreDocumentedRuns(F, 0);
    assert IsRunBlock(F, b);
    DocumentedRunOfLines(lines, F, b.startLine - 1, b.endLine);
    NotDocLine(lines, b.endLine);
    MemberLineOfRun(lines, F, b.startLine - 1, b.endLine);
  }

  /** A line classified as not a `///` line is not one. */
  lemma NotDocLine(lines: seq<string>, j: nat)
    requires j < |lines| && !ClassifyAll(lines)[j].isDoc
    ensures !IsDocLine(lines[j])
  {
    ClassifiedIsDoc(lines, j);
  }

  /** The lines of a documented run are `///` lines, and the lines just
      before and just after it are not. */
  lemma DocumentedRunOfLines(lines: seq<string>, F: seq<LineInfo>, s: nat, e: nat)
    requires F == ClassifyAll(lines) && DocumentedRun(F, s, e)
    ensures s == 0 || !IsDocLine(lines[s - 1])
    ensures forall j :: s <= j < e ==> IsDocLine(lines[j])
  {
    if s > 0 {
      NotDocLine(lines, s - 1);
    }
    forall j | s <= j < e ensures IsDocLine(lines[j]) {
      ClassifiedIsDoc(lines, j);
    }
  }

  /** The member line of a documented run, stated on the lines. */
  lemma MemberLineOfRun(lines: seq<string>, F: seq<LineInfo>, s: nat, e: nat)
    requires F == ClassifyAll(lines) && DocumentedRun(F, s, e)
    ensures e < |lines|
    ensures Declarations.Qualifies(lines[e]) && Declarations.StartsWithVisibility(lines[e])
  {
    ClassifiedDeclares(lines, e);
    Declarations.QualifiesHasVisibility(lines[e]);
  }

  /** Each flag of an extracted block holds exactly when some line of its
      run holds the flag's marker; `</summary>` plays no part. */
  lemma ExtractedBlockFlags(content: string, b: XmlDocBlock)
    requires b in ExtractBlocks(content)
    ensures var lines := Split(content);
            b.startLine >= 1 && b.endLine <= |lines|
            && (b.hasSummary <==> exists j :: b.startLine - 1 <= j < b.endLine && HasMarker(lines[j], SummaryOpen))
            && (b.hasExample <==> exists j :: b.startLine - 1 <= j < b.endLine && HasMarker(lines[j], ExampleOpen))
            && (b.hasCodeCsharp <==> exists j :: b.startLine - 1 <= j < b.endLine && HasMarker(lines[j], CodeOpen))
  {
    var lines := Split(content);
    var F := ClassifyAll(lines);
    BlocksAreDocumentedRuns(F, 0);
    MarkersOfLines(lines, b.startLine - 1, b.endLine);
  }

  /** The code sample of an extracted block is the sample of its run: the
      last closed `<code lang="csharp">` ... `</code>` stretch of it. */
  lemma ExtractedBlockSample(content: string, b: XmlDocBlock)
    requires b in ExtractBlocks(content)
    ensures 1 <= b.startLine <= b.endLine <= |Split(content)|
    ensures b.codeContent == SampleOf(ClassifyAll(Split(content))[b.startLine - 1..b.endLine])
  {
    BlocksAreDocumentedRuns(ClassifyAll(Split(content)), 0);
  }

  /** The blocks of a text are in file order. */
  lemma ExtractedInFileOrder(content: string)
    ensures InFileOrder(ExtractBlocks(content))
  {
    BlocksInFileOrder(ClassifyAll(Split(content)), 0);
  }

  /** The flags of the classified lines are the markers of the lines. */
  lemma MarkersOfLines(lines: seq<string>, s: nat, e: nat)
    requires s <= e <= |lines|
    ensures AnySummary(ClassifyAll(lines), s, e) <==> exists j :: s <= j < e && HasMarker(lines[j], SummaryOpen)
    ensures AnyExample(ClassifyAll(lines), s, e) <==> exists j :: s <= j < e && HasMarker(lines[j], ExampleOpen)
    ensures AnyCode(ClassifyAll(lines), s, e) <==> exists j :: s <= j < e && HasMarker(lines[j], CodeOpen)
  {
    var F := ClassifyAll(lines);
    forall j | s <= j < e
      ensures F[j].summary == HasMarker(lines[j], SummaryOpen)
      ensures F[j].example == HasMarker(lines[j], ExampleOpen)
      ensures F[j].opensCode == HasMarker(lines[j], CodeOpen)
    {
      ClassifiedMarkers(lines, j);
    }
  }

  /** A maximal run of `///` lines `lines[s..e]` followed by a declaring
      line yields a block with those line numbers. */
  lemma DocumentedRunExtracted(content: string, s: nat, e: nat)
    requires s < e < |Split(content)|
    requires s == 0 || !IsDocLine(Split(content)[s - 1])
    requires forall j :: s <= j < e ==> IsDocLine(Split(content)[j])
    requires !IsDocLine(Split(content)[e]) && Declarations.Qualifies(Split(content)[e])
    ensures exists b :: b in ExtractBlocks(content) && b.startLine == s + 1 && b.endLine == e && b.memberLine == e + 1
  {
    var lines := Split(content);
    var F := ClassifyAll(lines);
    ClassifiedRun(lines, s, e);
    ClassifiedIsDoc(lines, e);
    ClassifiedDeclares(lines, e);
    DocumentedRunIsBlock(F, 0, s, e);
    assert RunBlock(F, s, e) in ExtractBlocks(content);
  }

  /** A maximal run of `///` lines `lines[s..e]` yields no block when the
      text ends inside it or when the line after it does not start with
      `public`, `internal` or `protected` (a blank line, a `private`
      member, an attribute). */
  lemma DroppedRun(content: string, s: nat, e: nat)
    requires s < e <= |Split(content)|
    requires s == 0 || !IsDocLine(Split(content)[s - 1])
    requires forall j :: s <= j < e ==> IsDocLine(Split(content)[j])
    requires e == |Split(content)|
             || (!IsDocLine(Split(content)[e]) && !Declarations.StartsWithVisibility(Split(content)[e]))
    ensures forall b :: b in ExtractBlocks(content) ==> b.startLine != s + 1
  {
    var lines := Split(content);
    var F := ClassifyAll(lines);
    ClassifiedRun(lines, s, e);
    if e < |lines| {
      ClassifiedIsDoc(lines, e);
      ClassifiedDeclares(lines, e);
      Declarations.QualifiesHasVisibility(lines[e]);
    }
    DroppedRunOfLines(F, s, e);
  }

  lemma DroppedRunOfLines(F: seq<LineInfo>, s: nat, e: nat)
    requires s < e <= |F|
    requires s == 0 || !F[s - 1].isDoc
    requires forall j :: s <= j < e ==> F[j].isDoc
    requires e == |F| || (!F[e].isDoc && !F[e].declares)
    ensures forall b :: b in BlocksFrom(F, 0) ==> b.startLine != s + 1
  {
    BlocksAreDocumentedRuns(F, 0);
    forall b | b in BlocksFrom(F, 0) ensures b.startLine != s + 1 {
      var k := b.endLine;
      assert DocumentedRun(F, b.startLine - 1, k);
    }
  }

  /** The number of lines of `lines[i..]` that match a declaration recognizer. */
  function QualifyingLines(lines: seq<string>, i: nat): nat
    requires i <= |lines|
    decreases |lines| - i
  {
    if i == |lines| then 0
    else (if Declarations.Qualifies(lines[i]) then 1 else 0) + QualifyingLines(lines, i + 1)
  }

  /** A text yields no more blocks than it has lines that match a
      declaration recognizer. */
  lemma BlocksAtMostQualifyingLines(content: string)
    ensures |ExtractBlocks(content)| <= QualifyingLines(Split(content), 0)
  {
    var F := ClassifyAll(Split(content));
    BlocksAtMostDeclarations(F, 0);
    DeclaringCountsQualifying(Split(content), 0);
  }

  lemma {:induction false} DeclaringCountsQualifying(lines: seq<string>, i: nat)
    requires i <= |lines|
    ensures Declaring(ClassifyAll(lines), i) == QualifyingLines(lines, i)
    decreases |lines| - i
  {
    if i < |lines| {
      var F := ClassifyAll(lines);
      var q := Declarations.Qualifies(lines[i]);
      ClassifiedDeclares(lines, i);
      DeclaringCountsQualifying(lines, i + 1);
      assert QualifyingLines(lines, i) == (if q then 1 else 0) + QualifyingLines(lines, i + 1);
      assert Declaring(F, i) == (if q then 1 else 0) + Declaring(F, i + 1);
    }
  }

  /** A run of `///` lines, and the line before it, as classified lines. */
  lemma ClassifiedRun(lines: seq<string>, s: nat, e: nat)
    requires s <= e <= |lines|
    requires s == 0 || !IsDocLine(lines[s - 1])
    requires forall j :: s <= j < e ==> IsDocLine(lines[j])
    ensures s == 0 || !ClassifyAll(lines)[s - 1].isDoc
    ensures forall j :: s <= j < e ==> ClassifyAll(lines)[j].isDoc
  {
    forall j | s <= j < e ensures ClassifyAll(lines)[j].isDoc {
      ClassifiedIsDoc(lines, j);
    }
    if s > 0 {
      ClassifiedIsDoc(lines, s - 1);
    }
  }
}
