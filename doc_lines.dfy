/** What the block extractor tests about a single line
    (scripts/validate-docs.py:81-108 and 114-131): whether it is a `///`
    line, which markers its stripped text holds, whether it declares a
    non-private member, and the text a code sample captures from it. */
module DocLines {
  import opened Text
  import opened Wrappers
  import Declarations

  const DocPrefix := "///"
  const SummaryOpen := "<summary>"
  const SummaryClose := "</summary>"
  const ExampleOpen := "<example>"
  const CodeOpen := "<code lang=\"csharp\">"
  const CodeClose := "</code>"

  /** `line.strip().startswith('///')`. */
  predicate IsDocLine(line: string) {
    StartsWith(Strip(line), DocPrefix)
  }

  /** `marker in line.strip()`. */
  predicate HasMarker(line: string, marker: string) {
    Contains(Strip(line), marker)
  }

  // Group 1 of the match of `^\s*///\s*(.*)$` against the line: the line
  // without its leading whitespace, its `///` and the whitespace after that.
  // Lines come from splitting on newlines, so `(.*)$` always takes the rest.
  function DocText(line: string): (r: Option<string>)
    ensures r.Some? <==> LitAt(line, SkipSpace(line, 0), DocPrefix)
    ensures r.Some? ==> |r.value| <= |line| - 3 && (|r.value| > 0 ==> !IsSpace(r.value[0]))
    ensures r.Some? ==>
              var i := SkipSpace(line, 0);
              r.value == line[|line| - |r.value|..] && i + 3 <= |line| - |r.value|
              && forall k :: i + 3 <= k < |line| - |r.value| ==> IsSpace(line[k])
  {
    var i := SkipSpace(line, 0);
    if LitAt(line, i, DocPrefix) then Some(line[SkipSpace(line, i + 3)..]) else None
  }

  /** Everything the extractor reads from one line. */
  datatype LineInfo = LineInfo(
    isDoc: bool,              // a `///` line
    summary: bool,            // holds `<summary>`
    summaryClose: bool,       // holds `</summary>`
    example: bool,            // holds `<example>`
    opensCode: bool,          // holds `<code lang="csharp">`, exactly
    closesCode: bool,         // holds `</code>`
    declares: bool,           // one of the eleven declaration patterns matches
    capture: seq<string>)     // what a code sample appends for it: its doc text, if any

  function Classify(line: string): (info: LineInfo)
    ensures |info.capture| <= 1
  {
    LineInfo(
      IsDocLine(line),
      HasMarker(line, SummaryOpen),
      HasMarker(line, SummaryClose),
      HasMarker(line, ExampleOpen),
      HasMarker(line, CodeOpen),
      HasMarker(line, CodeClose),
      Declarations.Qualifies(line),
      Capture(line))
  }

  /** What a code sample takes from the line: its doc text, if any. */
  function Capture(line: string): (r: seq<string>)
    ensures |r| <= 1
  {
    match DocText(line)
    case Some(t) => [t]
    case None => []
  }

  /** Every line of the text, classified. */
  function ClassifyAll(lines: seq<string>): (infos: seq<LineInfo>)
    ensures |infos| == |lines|
    decreases |lines|
  {
    if |lines| == 0 then [] else ClassifyAll(lines[..|lines| - 1]) + [Classify(lines[|lines| - 1])]
  }

  /** Each entry of `ClassifyAll(lines)` classifies the line at that index. */
  lemma {:induction false} ClassifiedAt(lines: seq<string>, j: nat)
    requires j < |lines|
    ensures ClassifyAll(lines)[j] == Classify(lines[j])
    decreases |lines|
  {
    if j < |lines| - 1 {
      ClassifiedAt(lines[..|lines| - 1], j);
    }
  }

  /** Whether a line of the text is a `///` line, as classified. */
  lemma ClassifiedIsDoc(lines: seq<string>, j: nat)
    requires j < |lines|
    ensures ClassifyAll(lines)[j].isDoc == IsDocLine(lines[j])
  {
    ClassifiedAt(lines, j);
  }

  /** The three flag markers of a line of the text, as classified. */
  lemma ClassifiedMarkers(lines: seq<string>, j: nat)
    requires j < |lines|
    ensures var x := ClassifyAll(lines)[j];
            x.summary == HasMarker(lines[j], SummaryOpen)
            && x.example == HasMarker(lines[j], ExampleOpen)
            && x.opensCode == HasMarker(lines[j], CodeOpen)
  {
    ClassifiedAt(lines, j);
  }

  /** Whether a line of the text declares a member, as classified. */
  lemma ClassifiedDeclares(lines: seq<string>, j: nat)
    requires j < |lines|
    ensures ClassifyAll(lines)[j].declares == Declarations.Qualifies(lines[j])
  {
    ClassifiedAt(lines, j);
  }

  /** A `///` line always has doc text, so inside a code sample every line
      of the run is captured, with its indentation, `///` and the
      whitespace after it removed. */
  lemma DocLineIsCaptured(line: string)
    requires IsDocLine(line)
    ensures DocText(line).Some?
    ensures Classify(line).capture == [DocText(line).value]
  {
    var i := SkipSpace(line, 0);
    LStripDropsLeadingSpace(line, 0);
    assert line[0..] == line;
    var t := LStrip(line);
    assert t == line[i..];
    RStripIsPrefix(t);
    var s := Strip(line);
    assert s == t[..|s|];
    assert s[..3] == DocPrefix;
    assert line[i..i + 3] == t[..3] == s[..3];
  }
}
