/** The per-block checks of `validate_file` (scripts/validate-docs.py:148-196):
    for each extracted block, in order, a missing `<summary>` is an error, a
    missing `<example>` or tagged code sample is an error, and only a block
    that passes both gets one warning per placeholder pattern its sample
    matches. Reading the file is left to the caller, which passes either
    the text or the reason it could not be read. */
module Validator {
  import opened Placeholders
  import opened DocBlocks
  import Text

  /** `issue_type`, which the source writes as the strings below. */
  datatype IssueType = Error | Warning
  {
    function Name(): (name: string)
      ensures name == "error" <==> this == Error
    {
      match this
      case Error => "error"
      case Warning => "warning"
    }
  }

  /** One diagnostic. */
  datatype DocIssue = DocIssue(file: string, line: int, issueType: IssueType, message: string)

  const MissingSummary := "Non-private member missing <summary>"
  const MissingExample := "Non-private member missing <example> with <code lang=\"csharp\">"
  const PlaceholderPrefix := "Code example contains placeholder pattern: "
  const ReadFailurePrefix := "Could not read file: "

  /** The warning for one matched placeholder pattern. */
  function PlaceholderWarning(file: string, line: int, p: Pattern): DocIssue {
    DocIssue(file, line, Warning, PlaceholderPrefix + p.Source())
  }

  /** One warning per pattern, in the order given. */
  function PlaceholderWarnings(file: string, line: int, found: seq<Pattern>): (issues: seq<DocIssue>)
    ensures |issues| == |found|
    ensures forall i :: 0 <= i < |found| ==> issues[i] == PlaceholderWarning(file, line, found[i])
  {
    seq(|found|, i requires 0 <= i < |found| => PlaceholderWarning(file, line, found[i]))
  }

  /** The diagnostics of one block, first failing check first. */
  function CheckBlock(file: string, b: XmlDocBlock): (issues: seq<DocIssue>)
    ensures forall x :: x in issues ==> x.file == file && x.line == b.startLine
  {
    if !b.hasSummary then [DocIssue(file, b.startLine, Error, MissingSummary)]
    else if !b.hasExample || !b.hasCodeCsharp then [DocIssue(file, b.startLine, Error, MissingExample)]
    else PlaceholderWarnings(file, b.startLine, CheckForPlaceholders(b.codeContent))
  }

  /** A block is complete when it has a summary, an example and a tagged
      code sample. */
  predicate Complete(b: XmlDocBlock) {
    b.hasSummary && b.hasExample && b.hasCodeCsharp
  }

  /** The diagnostics of all blocks, block by block. */
  function CheckBlocks(file: string, blocks: seq<XmlDocBlock>): (issues: seq<DocIssue>)
    ensures forall x :: x in issues ==> x.file == file && exists b :: b in blocks && x.line == b.startLine
  {
    if |blocks| == 0 then [] else CheckBlock(file, blocks[0]) + CheckBlocks(file, blocks[1..])
  }

  /** What reading the file gave: its text, or the text of the exception. */
  datatype ReadOutcome = Read(content: string) | ReadFailed(reason: string)

  /** `validate_file`. */
  function ValidateFile(path: string, outcome: ReadOutcome): (issues: seq<DocIssue>)
    ensures forall x :: x in issues ==> x.file == path
    ensures outcome.ReadFailed? ==>
              |issues| == 1 && issues[0].issueType == Error && issues[0].line == 0
              && issues[0].message == ReadFailurePrefix + outcome.reason
  {
    match outcome
    case ReadFailed(reason) => [DocIssue(path, 0, Error, ReadFailurePrefix + reason)]
    case Read(content) => CheckBlocks(path, ExtractBlocks(content))
  }

  // ---- The first failing check wins ----

  /** A block has an error exactly when it is incomplete; then the error is
      its only diagnostic, and it names the first missing part. A complete
      block has warnings only. */
  lemma CheckBlockShortCircuit(file: string, b: XmlDocBlock)
    ensures var issues := CheckBlock(file, b);
            ((exists x :: x in issues && x.issueType == Error) <==> !Complete(b))
            && (!Complete(b) ==> |issues| == 1 && issues[0].issueType == Error)
            && (!b.hasSummary ==> issues[0].message == MissingSummary)
            && (b.hasSummary && !Complete(b) ==> issues[0].message == MissingExample)
            && (Complete(b) ==> forall x :: x in issues ==> x.issueType == Warning)
  {
    var issues := CheckBlock(file, b);
    if !Complete(b) {
      assert issues[0] in issues;
    }
  }

  /** A complete block gets one warning per placeholder pattern its sample
      matches, and no other: at most five, none twice. The lemma after it
      gives their order. */
  lemma PlaceholderWarningsOfBlock(file: string, b: XmlDocBlock)
    requires Complete(b)
    ensures var issues := CheckBlock(file, b);
            (forall p: Pattern :: PlaceholderWarning(file, b.startLine, p) in issues <==> p.MatchesIn(b.codeContent))
            && (forall x :: x in issues ==>
                  exists p: Pattern :: p.MatchesIn(b.codeContent) && x == PlaceholderWarning(file, b.startLine, p))
            && |issues| <= |PlaceholderPatterns|
            && (forall i, j :: 0 <= i < j < |issues| ==> issues[i] != issues[j])
  {
    var found := CheckForPlaceholders(b.codeContent);
    var issues := CheckBlock(file, b);
    assert issues == PlaceholderWarnings(file, b.startLine, found);
    forall x | x in issues
      ensures exists p: Pattern :: p.MatchesIn(b.codeContent) && x == PlaceholderWarning(file, b.startLine, p)
    {
      var i :| 0 <= i < |issues| && issues[i] == x;
      assert found[i] in found;
    }

    forall p: Pattern
      ensures PlaceholderWarning(file, b.startLine, p) in issues <==> p in found
    {
      if PlaceholderWarning(file, b.startLine, p) in issues {
        var i :| 0 <= i < |issues| && issues[i] == PlaceholderWarning(file, b.startLine, p);
        WarningNamesPattern(file, b.startLine, found[i], p);
        assert found[i] in found;
      }
      if p in found {
        var i :| 0 <= i < |found| && found[i] == p;
        assert issues[i] in issues;
      }
    }
    forall i, j | 0 <= i < j < |issues| ensures issues[i] != issues[j] {
      if issues[i] == issues[j] {
        WarningNamesPattern(file, b.startLine, found[i], found[j]);
      }
    }
  }

  /** The warnings of a complete block come in the order of
      `PLACEHOLDER_PATTERNS`. */
  lemma PlaceholderWarningsInOrder(file: string, b: XmlDocBlock, i: nat, j: nat, p: Pattern, q: Pattern)
    requires Complete(b)
    requires i < j < |CheckBlock(file, b)|
    requires CheckBlock(file, b)[i] == PlaceholderWarning(file, b.startLine, p)
    requires CheckBlock(file, b)[j] == PlaceholderWarning(file, b.startLine, q)
    ensures p.Rank() < q.Rank()
  {
    var found := CheckForPlaceholders(b.codeContent);
    assert CheckBlock(file, b) == PlaceholderWarnings(file, b.startLine, found);
    WarningNamesPattern(file, b.startLine, found[i], p);
    WarningNamesPattern(file, b.startLine, found[j], q);
  }

  /** Different patterns give different warnings. */
  lemma WarningNamesPattern(file: string, line: int, p: Pattern, q: Pattern)
    requires PlaceholderWarning(file, line, p) == PlaceholderWarning(file, line, q)
    ensures p == q
  {
    var n := |PlaceholderPrefix|;
    assert (PlaceholderPrefix + p.Source())[n..] == p.Source();
    assert (PlaceholderPrefix + q.Source())[n..] == q.Source();
    SourcesDiffer(p, q);
  }

  /** The five patterns are written differently. */
  lemma SourcesDiffer(p: Pattern, q: Pattern)
    requires p.Source() == q.Source()
    ensures p == q
  {
  }

  // ---- A whole file ----

  /** Every diagnostic of a file comes from one of its blocks, and every
      diagnostic of a block is reported. */
  lemma {:induction false} CheckBlocksIsUnion(file: string, blocks: seq<XmlDocBlock>)
    ensures forall x :: x in CheckBlocks(file, blocks) <==> exists b :: b in blocks && x in CheckBlock(file, b)
    decreases |blocks|
  {
    if |blocks| > 0 {
      CheckBlocksIsUnion(file, blocks[1..]);
      forall x | x in CheckBlocks(file, blocks)
        ensures exists b :: b in blocks && x in CheckBlock(file, b)
      {
        if x !in CheckBlock(file, blocks[0]) {
          var b :| b in blocks[1..] && x in CheckBlock(file, b);
          assert b in blocks;
        }
      }
      forall x, b | b in blocks && x in CheckBlock(file, b)
        ensures x in CheckBlocks(file, blocks)
      {
        if b != blocks[0] {
          assert b in blocks[1..];
        }
      }
    }
  }

  /** A file that can be read yields diagnostics only on lines numbered
      from 1, each at the first `///` line of a block of the file, and
      never at the member line; so line 0 always means a read failure. */
  lemma ReadableFileLines(path: string, content: string)
    ensures forall x :: x in ValidateFile(path, Read(content)) ==>
              x.file == path && x.line >= 1
              && exists b :: b in ExtractBlocks(content) && x.line == b.startLine && x.line < b.memberLine
  {
    var blocks := ExtractBlocks(content);
    CheckBlocksIsUnion(path, blocks);
    forall x | x in ValidateFile(path, Read(content))
      ensures x.file == path && x.line >= 1
      ensures exists b :: b in blocks && x.line == b.startLine && x.line < b.memberLine
    {
      var b :| b in blocks && x in CheckBlock(path, b);
      ExtractedBlockShape(content, b);
    }
  }

  /** A text without `///` lines draws no diagnostic. */
  lemma UndocumentedFileIsClean(path: string, content: string)
    requires forall j :: 0 <= j < |Text.Split(content)| ==> !DocLines.IsDocLine(Text.Split(content)[j])
    ensures ValidateFile(path, Read(content)) == []
  {
    var blocks := ExtractBlocks(content);
    if |blocks| > 0 {
      assert blocks[0] in blocks;
      BlockStartsWithDocLine(content, blocks[0]);
      assert false;
    }
  }

  /** The line a block's diagnostics point at is a `///` line of the text. */
  lemma BlockStartsWithDocLine(content: string, b: XmlDocBlock)
    requires b in ExtractBlocks(content)
    ensures 1 <= b.startLine <= |Text.Split(content)|
    ensures DocLines.IsDocLine(Text.Split(content)[b.startLine - 1])
  {
    ExtractedBlockShape(content, b);
  }
}
