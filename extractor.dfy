/** `extract_xml_doc_blocks` (scripts/validate-docs.py:72-136) as the source
    writes it: one pass over the lines with the open block, the `in_code`
    flag and the held code lines as state, proved to return the blocks
    that `DocBlocks.ExtractBlocks` describes run by run. */
module Extractor {
  import opened Text
  import opened Wrappers
  import opened DocLines
  import opened CodeSample
  import opened DocBlocks
  import Declarations

  method ExtractXmlDocBlocks(content: string) returns (blocks: seq<XmlDocBlock>)
    ensures blocks == ExtractBlocks(content)
  {
    var lines := Split(content);
    ghost var F := ClassifyAll(lines);
    blocks := [];
    var current: Option<XmlDocBlock> := None;
    var inCode := false;
    var codeContent: seq<string> := [];
    ghost var s: nat := 0;

    for k := 0 to |lines|
      invariant Scanned(F, k, s, current, inCode, codeContent, blocks)
    {
      var stripped := Strip(lines[k]);
      ClassifiedDoc(lines, k);
      ghost var s0, open, held, before := s, current, (inCode, codeContent), blocks;
      if StartsWith(stripped, DocPrefix) {
        ScannedOpen(F, k, s, current, inCode, codeContent, blocks);
        current, inCode, codeContent, s := ReadDocLine(lines, F, s, k, stripped, current, inCode, codeContent);
        ScannedDocLine(F, k, s0, s, open, held.0, held.1, blocks);
      } else {
        blocks, current, inCode, codeContent := EndLine(lines, F, s, k, current, inCode, codeContent, blocks);
        ScannedEndLine(F, k, s, open, held.0, held.1, before, blocks);
      }
    }
    ScannedAll(F, s, current, inCode, codeContent, blocks);
  }

  /** The state of the scan after the first `k` lines, given the blocks the
      run specification yields. With no block open, no sample is open,
      nothing is held, line `k - 1` is not a `///` line and the blocks
      found so far are those before line `k`. With a block open, it is the
      block of the `///` lines from `s` to `k - 1`, a whole run so far, the
      sample state is that of those lines, and the blocks found so far are
      those before line `s`. */
  ghost predicate Scanned(F: seq<LineInfo>, k: nat, s: nat, current: Option<XmlDocBlock>,
                          inCode: bool, codeContent: seq<string>, blocks: seq<XmlDocBlock>)
  {
    k <= |F|
    && (current.None? ==>
          !inCode && codeContent == [] && (k == 0 || !F[k - 1].isDoc)
          && blocks + BlocksFrom(F, k) == BlocksFrom(F, 0))
    && (current.Some? ==>
          s < k && (s == 0 || !F[s - 1].isDoc) && (forall j :: s <= j < k ==> F[j].isDoc)
          && current.value == OpenBlock(F, s, k)
          && inCode == InCode(F[s..k]) && codeContent == Pending(F[s..k])
          && blocks + BlocksFrom(F, s) == BlocksFrom(F, 0))
  }

  /** At the end of the text a block still open is dropped, and the blocks
      found are all there are. */
  lemma ScannedAll(F: seq<LineInfo>, s: nat, current: Option<XmlDocBlock>,
                   inCode: bool, codeContent: seq<string>, blocks: seq<XmlDocBlock>)
    requires Scanned(F, |F|, s, current, inCode, codeContent, blocks)
    ensures blocks == BlocksFrom(F, 0)
  {
    if current.Some? {
      RunEndAt(F, s, |F|);
    }
  }

  /** After a `///` line the block of the run up to it is open. */
  lemma ScannedDocLine(F: seq<LineInfo>, k: nat, s0: nat, s: nat, current: Option<XmlDocBlock>,
                       inCode: bool, codeContent: seq<string>, blocks: seq<XmlDocBlock>)
    requires k < |F| && F[k].isDoc
    requires Scanned(F, k, s0, current, inCode, codeContent, blocks)
    requires s == if current.None? then k else s0
    ensures Scanned(F, k + 1, s, Some(OpenBlock(F, s, k + 1)), InCode(F[s..k + 1]), Pending(F[s..k + 1]), blocks)
  {
    if current.None? {
      ScannedRun(F, k, k, blocks);
    } else {
      ScannedRun(F, k, s0, blocks);
    }
  }

  /** The run from `s` has reached the `///` line `k`. */
  lemma ScannedRun(F: seq<LineInfo>, k: nat, s: nat, blocks: seq<XmlDocBlock>)
    requires s <= k < |F| && F[k].isDoc
    requires (s == 0 || !F[s - 1].isDoc) && (forall j :: s <= j < k ==> F[j].isDoc)
    requires blocks + BlocksFrom(F, s) == BlocksFrom(F, 0)
    ensures Scanned(F, k + 1, s, Some(OpenBlock(F, s, k + 1)), InCode(F[s..k + 1]), Pending(F[s..k + 1]), blocks)
  {
  }

  /** What the scan state says about the open block, if any. */
  lemma ScannedOpen(F: seq<LineInfo>, k: nat, s: nat, current: Option<XmlDocBlock>,
                    inCode: bool, codeContent: seq<string>, blocks: seq<XmlDocBlock>)
    requires Scanned(F, k, s, current, inCode, codeContent, blocks)
    ensures current.None? ==> !inCode && codeContent == []
    ensures current.Some? ==> s <= k && current.value == OpenBlock(F, s, k)
                              && inCode == InCode(F[s..k]) && codeContent == Pending(F[s..k])
  {
  }

  /** A `///` line (scripts/validate-docs.py:84-108): it opens a block
      when none is open, then its markers raise the flags,
      `<code lang="csharp">` starts holding afresh, `</code>` stops holding
      and stores what is held as the sample, and while a sample is open the
      line's doc text is held. The open block is then the block of the run
      up to and including this line. */
  method ReadDocLine(lines: seq<string>, ghost F: seq<LineInfo>, ghost s0: nat, k: nat, stripped: string,
                     current: Option<XmlDocBlock>, inCode: bool, codeContent: seq<string>)
    returns (current': Option<XmlDocBlock>, inCode': bool, codeContent': seq<string>, ghost s: nat)
    requires F == ClassifyAll(lines) && k < |lines| && stripped == Strip(lines[k])
    requires current.None? ==> !inCode && codeContent == []
    requires current.Some? ==> s0 <= k && current.value == OpenBlock(F, s0, k)
                               && inCode == InCode(F[s0..k]) && codeContent == Pending(F[s0..k])
    ensures s == if current.None? then k else s0
    ensures current' == Some(OpenBlock(F, s, k + 1))
    ensures inCode' == InCode(F[s..k + 1]) && codeContent' == Pending(F[s..k + 1])
  {
    var line := lines[k];
    ClassifiedAt(lines, k);
    var b;
    if current.None? {
      s := k;
      OpenEmpty(F, k);
      b := XmlDocBlock(k + 1, k + 1, false, false, false, "", 0);
    } else {
      s := s0;
      b := current.value.(endLine := k + 1);
    }
    OpenStep(F, s, k);
    inCode', codeContent' := inCode, codeContent;
    if Contains(stripped, SummaryOpen) || (b.hasSummary && !Contains(stripped, SummaryClose)) {
      b := b.(hasSummary := true);
    }
    if Contains(stripped, ExampleOpen) {
      b := b.(hasExample := true);
    }
    if Contains(stripped, CodeOpen) {
      b := b.(hasCodeCsharp := true);
      inCode' := true;
      codeContent' := [];
    }
    if Contains(stripped, CodeClose) {
      inCode' := false;
      b := b.(codeContent := JoinLines(codeContent'));
    }
    if inCode' {
      match DocText(line)
      case Some(t) => codeContent' := codeContent' + [t];
      case None =>
    }
    current' := Some(b);
  }

  /** A line that is not a `///` line (scripts/validate-docs.py:110-134):
      an open block is kept, with this line as its member line, when one of
      the declaration recognizers matches the line, and dropped otherwise;
      either way no block is open afterwards and the sample state is
      cleared. What is kept is what the run specification yields. */
  method EndLine(lines: seq<string>, ghost F: seq<LineInfo>, ghost s: nat, k: nat,
                 current: Option<XmlDocBlock>, inCode: bool, codeContent: seq<string>,
                 blocks: seq<XmlDocBlock>)
    returns (blocks': seq<XmlDocBlock>, current': Option<XmlDocBlock>, inCode': bool, codeContent': seq<string>)
    requires F == ClassifyAll(lines) && k < |lines|
    requires Scanned(F, k, s, current, inCode, codeContent, blocks)
    ensures current' == None && !inCode' && codeContent' == []
    ensures current.Some? ==>
              blocks' == blocks + (if F[k].declares then [RunBlock(F, s, k)] else [])
    ensures current.None? ==> blocks' == blocks
  {
    blocks' := blocks;
    if current.Some? {
      var declares := IsDeclaration(lines, k);
      if declares {
        blocks' := blocks' + [current.value.(memberLine := k + 1)];
      }
    }
    current', inCode', codeContent' := None, false, [];
  }

  /** After a line that is not a `///` line no block is open, and the
      blocks found are those before the next line. */
  lemma ScannedEndLine(F: seq<LineInfo>, k: nat, s: nat, current: Option<XmlDocBlock>,
                       inCode: bool, codeContent: seq<string>, blocks: seq<XmlDocBlock>, blocks': seq<XmlDocBlock>)
    requires k < |F| && !F[k].isDoc
    requires Scanned(F, k, s, current, inCode, codeContent, blocks)
    requires current.Some? ==> blocks' == blocks + (if F[k].declares then [RunBlock(F, s, k)] else [])
    requires current.None? ==> blocks' == blocks
    ensures Scanned(F, k + 1, s, None, false, [], blocks')
  {
    if current.Some? {
      RunEndAt(F, s, k);
    } else {
      assert BlocksFrom(F, k) == BlocksFrom(F, k + 1);
    }
  }

  /** The search through the eleven declaration patterns
      (scripts/validate-docs.py:114-131), which stops at the first that
      matches: whether line `k` declares a member. */
  method IsDeclaration(lines: seq<string>, k: nat) returns (declares: bool)
    requires k < |lines|
    ensures declares == ClassifyAll(lines)[k].declares
  {
    ClassifiedDeclares(lines, k);
    declares := Declarations.Qualifies(lines[k]);
  }

  /** The test the loop makes itself: whether a line is a `///` line. */
  lemma ClassifiedDoc(lines: seq<string>, k: nat)
    requires k < |lines|
    ensures ClassifyAll(lines)[k].isDoc == StartsWith(Strip(lines[k]), DocPrefix)
  {
    ClassifiedIsDoc(lines, k);
  }

  /** A block opened at line `k` starts with no flag, no sample and nothing held. */
  lemma OpenEmpty(F: seq<LineInfo>, k: nat)
    requires k <= |F|
    ensures OpenBlock(F, k, k) == XmlDocBlock(k + 1, k, false, false, false, "", 0)
    ensures !InCode(F[k..k]) && Pending(F[k..k]) == []
  {
    assert F[k..k] == [];
  }

  /** How one more `///` line changes the open block, whether a sample is
      open, and the held lines. */
  lemma OpenStep(F: seq<LineInfo>, s: nat, k: nat)
    requires s <= k < |F|
    ensures var x, b := F[k], OpenBlock(F, s, k);
            OpenBlock(F, s, k + 1)
              == b.(endLine := k + 1,
                    hasSummary := b.hasSummary || x.summary,
                    hasExample := b.hasExample || x.example,
                    hasCodeCsharp := b.hasCodeCsharp || x.opensCode,
                    codeContent := if x.closesCode then JoinLines(if x.opensCode then [] else Pending(F[s..k]))
                                   else b.codeContent)
            && InCode(F[s..k + 1]) == (!x.closesCode && (x.opensCode || InCode(F[s..k])))
            && Pending(F[s..k + 1])
               == if x.opensCode then (if x.closesCode then [] else x.capture)
                  else if InCode(F[s..k]) && !x.closesCode then Pending(F[s..k]) + x.capture
                  else Pending(F[s..k])
  {
    assert F[s..k + 1] == F[s..k] + [F[k]];
    StepFlags(F, s, k);
    InCodeStep(F[s..k], F[k]);
    PendingStep(F[s..k], F[k]);
    SampleStep(F[s..k], F[k]);
  }

  /** One more `///` line adds its markers to the flags of the open block. */
  lemma StepFlags(F: seq<LineInfo>, s: nat, k: nat)
    requires s <= k < |F|
    ensures AnySummary(F, s, k + 1) == (AnySummary(F, s, k) || F[k].summary)
    ensures AnyExample(F, s, k + 1) == (AnyExample(F, s, k) || F[k].example)
    ensures AnyCode(F, s, k + 1) == (AnyCode(F, s, k) || F[k].opensCode)
  {
  }
}
