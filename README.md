# validate-docs: a verified model of the doc-comment linter

`scripts/validate-docs.py` checks the `///` XML documentation comments of C#
sources. For each file it does two things, one after the other:

1. **Extract blocks.** It splits the text into lines and scans them once,
   line by line. A run of consecutive lines whose stripped text starts
   with `///` is a block.
   - While a run is open, a substring test on each line raises three
     flags: `<summary>`, `<example>` and the exact `<code lang="csharp">`.
   - The block also keeps the code sample: the doc text from a
     `<code lang="csharp">` line up to the next `</code>` line. When a run
     holds several samples, the block keeps the last closed one.
   - The first line that is not `///` ends the run. The block is kept,
     with that line as its member line, only if one of eleven
     non-private declaration patterns matches that line.
   - A run still open at the end of the text is dropped.
2. **Check blocks.** Each block, in order, gets diagnostics, and the
   first failing check wins:
   - a missing summary gives one error;
   - a missing example or tagged code sample gives one error;
   - otherwise there is one warning per placeholder pattern that the
     sample matches, ignoring case.

The model is organised in modules:

- `Text` models the Python string operations used: `split('\n')`,
  `'\n'.join`, `strip`, `startswith`, `in`, and the `\s` / `\w` classes.
- `Declarations` models the eleven declaration patterns as one predicate,
  `Qualifies`.
- `DocLines` models what is read from one line, as a `LineInfo` record.
- `CodeSample` specifies the code sample by where its markers are.
- `DocBlocks` specifies the extracted blocks run by run, in the function
  `ExtractBlocks`, and proves the block properties about it.
- `Extractor` holds `ExtractXmlDocBlocks`, the line-by-line scan with the
  source's own mutable state (`current_block`, `in_code`, `code_content`,
  `blocks`). It is proved to return exactly `ExtractBlocks(content)`.
- `Placeholders` models the five placeholder patterns and
  `check_for_placeholders`.
- `CaseFolding` and `CaseInsensitive` show that the scan ignores the case
  of ASCII letters, as `re.IGNORECASE` does.
- `Validator` models the per-block checks of `validate_file`. Reading the
  file is a parameter: either the text, or the reason reading failed.

Line numbers are 1-based in the blocks, as in the source. Lemma
arguments index the `lines` sequence from 0.

## Model

| member | source | states |
|---|---|---|
| Extractor.ExtractXmlDocBlocks | scripts/validate-docs.py:72-136 | The scan, with its open block, `in_code` flag, held code lines and block list, returns exactly the blocks of the run specification `ExtractBlocks` |
| Extractor.ReadDocLine | scripts/validate-docs.py:84-108 | After a `///` line, the open block is the block of the run up to and including that line. Its flags, sample, open-sample state and held lines agree with the run specification. A new block opens when none was open |
| Extractor.EndLine | scripts/validate-docs.py:110-134 | A non-`///` line keeps the open block, with this line as its member line, exactly when the line declares a member. No block stays open, and the sample state is cleared |
| Extractor.IsDeclaration | scripts/validate-docs.py:114-131 | The search through the declaration patterns answers whether the line declares a member |
| Extractor.ScannedDocLine | scripts/validate-docs.py:84-108 | After a `///` line the loop invariant holds again, with the open block covering the run so far |
| Extractor.ScannedRun | scripts/validate-docs.py:84-88 | A `///` line that opens a run, or continues a run with nothing before it, leaves the loop invariant holding with that run open up to and including the line |
| Extractor.ScannedEndLine | scripts/validate-docs.py:110-134 | After a non-`///` line the loop invariant holds again with no block open, and the kept blocks are those of the runs before the next line |
| Extractor.ScannedAll | scripts/validate-docs.py:136 | At the end of the text a block still open is dropped, and the blocks collected are all the blocks |
| Extractor.ScannedOpen | scripts/validate-docs.py:76-78 | The scan state: with no block open, no sample is open and nothing is held. With one open, it is the block of the run so far, with that run's sample state |
| Extractor.OpenEmpty | scripts/validate-docs.py:85-86 | A freshly opened block has no flag, an empty sample and member line 0, with nothing held and no sample open |
| Extractor.OpenStep | scripts/validate-docs.py:88-108 | One more `///` line updates the open block field by field: end line, sticky flags, and a sample replaced only on a `</code>` line |
| Extractor.StepFlags | scripts/validate-docs.py:91-98 | Each flag of a run extended by one line is the old flag or that line's marker |
| Extractor.ClassifiedDoc | scripts/validate-docs.py:84 | The loop's own `startswith('///')` test agrees with the classification of the line |
| DocBlocks.RunEnd | scripts/validate-docs.py:84-88 | A run extends over consecutive `///` lines up to the first line that is not one, or to the end |
| DocBlocks.ExtractBlocks | scripts/validate-docs.py:72-136 | The result of `extract_xml_doc_blocks`, defined run by run; `ExtractXmlDocBlocks` computes it, and the `Extracted...` lemmas state its shape, flags, sample and order |
| DocBlocks.RunEndAt | scripts/validate-docs.py:84-88 | A run of `///` lines that ends at a non-`///` line or at the end of the text is the run `RunEnd` finds |
| DocBlocks.BlocksAreDocumentedRuns | scripts/validate-docs.py:84-132 | Every block covers a whole run of `///` lines: `start_line <= end_line`, and `member_line == end_line + 1`, which is a non-`///` line that declares a member. The block's fields are those of its run |
| DocBlocks.RunBlockIsDocumentedRun | scripts/validate-docs.py:84-131 | The block of a whole run followed by a declaring line starts at the run's first line and ends at its last. Its member line is the next line, and its fields are those of the run |
| DocBlocks.BlocksOfRun | scripts/validate-docs.py:84-134 | From the first line of a run that ends before the end of the text, the blocks are that run's block, kept only when its next line declares, followed by the blocks after that line |
| DocBlocks.DocumentedRunIsBlock | scripts/validate-docs.py:112-131 | Conversely, every whole run followed by a declaring line gives a block |
| DocBlocks.BlocksInFileOrder | scripts/validate-docs.py:80-132 | Blocks come out in file order without overlapping: each block starts after the previous block's member line |
| DocBlocks.ExtractedInFileOrder | scripts/validate-docs.py:80-132 | The same, for the blocks of a text |
| DocBlocks.ExtractedBlockShape | scripts/validate-docs.py:84-132 | In terms of the text's lines: a block's lines are `///` lines, the line before it is not one, and its member line is a non-`///` line that matches a recognizer and starts with `public`, `internal` or `protected` |
| DocBlocks.DocumentedRunOfLines | scripts/validate-docs.py:84 | The lines of a documented run are `///` lines, and the line before it is not one |
| DocBlocks.MemberLineOfRun | scripts/validate-docs.py:112-131 | The member line of a documented run matches a declaration recognizer and starts with a visibility |
| DocBlocks.NotDocLine | scripts/validate-docs.py:84 | A line classified as not a `///` line does not start with `///` once stripped |
| DocBlocks.ExtractedBlockFlags | scripts/validate-docs.py:91-98 | Each flag is true exactly when some line of the run holds its marker (`<summary>`, `<example>`, the exact `<code lang="csharp">`). `</summary>` never clears the summary flag |
| DocBlocks.ExtractedBlockSample | scripts/validate-docs.py:97-108 | A block's `code_content` is the sample of its run, as `CodeSample.SampleOf` specifies it |
| DocBlocks.MarkersOfLines | scripts/validate-docs.py:91-98 | The flags of the classified lines are exactly the markers in the lines' stripped text |
| DocBlocks.DocumentedRunExtracted | scripts/validate-docs.py:112-131 | Every whole run of `///` lines followed by a non-`///` line that matches a recognizer gives a block, with `start_line`, `end_line` and `member_line` as expected |
| DocBlocks.DroppedRun | scripts/validate-docs.py:112-136 | A run gives no block when it is still open at the end of the text, or when the line after it does not start with a visibility keyword followed by whitespace (a blank line, `private`, an attribute) |
| DocBlocks.DroppedRunOfLines | scripts/validate-docs.py:112-136 | The same over classified lines: a run followed by the end, or by a non-declaring line, gives no block |
| DocBlocks.BlocksAtMostDeclarations | scripts/validate-docs.py:114-131 | There are at most as many blocks as declaring lines |
| DocBlocks.BlocksAtMostQualifyingLines | scripts/validate-docs.py:114-131 | In terms of the text: there are at most as many blocks as lines that match a recognizer |
| DocBlocks.DeclaringSplit | scripts/validate-docs.py:114-131 | Counting declaring lines from `i` covers line `e` and everything after it |
| DocBlocks.DeclaringCountsQualifying | scripts/validate-docs.py:114-131 | The declaring lines among the classified lines are the lines that match a recognizer |
| DocBlocks.ClassifiedRun | scripts/validate-docs.py:84 | A run of `///` lines in the text is a run of `///` lines among the classified lines |
| CodeSample.LastOpen | scripts/validate-docs.py:97-100 | Finds the last `<code lang="csharp">` line of a run, or reports that there is none |
| CodeSample.LastClose | scripts/validate-docs.py:101-103 | Finds the last `</code>` line of a run, or reports that there is none |
| CodeSample.FirstClose | scripts/validate-docs.py:101-102 | Finds the first `</code>` line at or after an opening line, or the end of the run |
| CodeSample.InCodeStep | scripts/validate-docs.py:97-102 | After one more line, a sample is open exactly when that line does not close and either opens or continues an open sample |
| CodeSample.PendingStep | scripts/validate-docs.py:97-108 | After one more line, the held lines are restarted by an opening line (which holds itself unless it also closes), extended by a line inside an open sample, and otherwise unchanged |
| CodeSample.SampleStep | scripts/validate-docs.py:101-103 | A `</code>` line replaces the sample with the held lines joined by newlines (nothing when the same line opens). Any other line leaves it alone |
| CodeSample.FirstCloseAppend | scripts/validate-docs.py:101-102 | Appending a line moves the first closing line only when none was found before |
| CodeSample.CapturesAppend | scripts/validate-docs.py:104-108 | Appending a line appends its doc text to what is captured |
| CodeSample.UnclosedSampleIsEmpty | scripts/validate-docs.py:101-103 | With no `</code>` line in the run, the sample is `""` |
| CodeSample.SameLineSampleIsEmpty | scripts/validate-docs.py:97-103 | When the last `</code>` line also holds `<code lang="csharp">`, the sample is `""` |
| CodeSample.SingleSample | scripts/validate-docs.py:97-108 | With one opening line `o` and one closing line `c` after it, the sample is the doc text of lines `o` (included) to `c` (excluded), joined by newlines |
| CodeSample.SampleHeld | scripts/validate-docs.py:97-108 | With one opening line and one closing line after it, the lines held at the closing line are the doc text from the opening line up to it |
| CodeSample.LastSampleWins | scripts/validate-docs.py:97-103 | Lines before an opening line that lies at or before the last closing line do not affect the sample: the most recently closed sample wins |
| CodeSample.HeldShift | scripts/validate-docs.py:97-108 | Lines before the last opening line change neither the held lines nor whether a sample is open |
| DocLines.DocText | scripts/validate-docs.py:106-108 | `^\s*///\s*(.*)$` matches exactly when `///` follows the indentation. The captured group is then the rest of the line after the indentation, the `///` and all the whitespace after it: it is a suffix of the line, everything between `///` and it is whitespace, and it does not start with whitespace |
| DocLines.IsDocLine | scripts/validate-docs.py:81-84 | `line.strip().startswith('///')`; `ClassifiedIsDoc` ties it to the classification and `DocLineIsCaptured` shows such a line always has doc text |
| DocLines.HasMarker | scripts/validate-docs.py:91-101 | `marker in line.strip()`; `ClassifiedMarkers` and `ExtractedBlockFlags` tie the block flags to it |
| DocLines.Capture | scripts/validate-docs.py:104-108 | What an open sample takes from a line: its doc text, at most one piece |
| DocLines.DocLineIsCaptured | scripts/validate-docs.py:104-108 | Every `///` line has doc text, so inside an open sample every line of the run is captured |
| DocLines.ClassifiedAt | scripts/validate-docs.py:80-81 | The classification of a text's lines classifies each line at its own index |
| DocLines.ClassifiedDeclares | scripts/validate-docs.py:114-131 | A classified line declares a member exactly when one of the recognizers matches it |
| DocLines.ClassifiedIsDoc | scripts/validate-docs.py:84 | A classified line is a `///` line exactly when its stripped text starts with `///` |
| DocLines.ClassifiedMarkers | scripts/validate-docs.py:91-98 | A classified line's summary, example and code flags are exactly the markers `<summary>`, `<example>` and `<code lang="csharp">` in its stripped text |
| Declarations.QualifiesHasVisibility | scripts/validate-docs.py:114-126 | Every recognizer begins `^\s*(public\|internal\|protected\|protected\s+internal)\s+`, so a line that qualifies starts with a visibility keyword and whitespace |
| Declarations.Qualifies | scripts/validate-docs.py:114-131 | Some recognizer matches the line for one of the two ways the visibility group can end. `QualifiesHasVisibility` shows each match starts with a visibility keyword and whitespace |
| Declarations.CallShape | scripts/validate-docs.py:115 | Recognizer 1: a whitespace, a word and `(` after optional spaces, somewhere after the visibility |
| Declarations.PropertyShape | scripts/validate-docs.py:116 | Recognizer 2: an optional `static`, a word and `{` |
| Declarations.TypedPropertyShape | scripts/validate-docs.py:117 | Recognizer 3: optional `static` and `readonly`, two words and `{` |
| Declarations.TypeShape | scripts/validate-docs.py:118 | Recognizer 4: optional `static`, then `class`, `struct`, `interface` or `enum`, whitespace and a word character |
| Declarations.ConversionOperatorShape | scripts/validate-docs.py:119-122 | Recognizers 5 to 8: `implicit` or `explicit`, with or without `static` before it, then `operator` |
| Declarations.TypedOperatorShape | scripts/validate-docs.py:123-124 | Recognizers 9 and 10: an optional `static`, a word, whitespace and `operator` |
| Declarations.AnyOperatorShape | scripts/validate-docs.py:125 | Recognizer 11: an optional `static`, an optional word and `operator`; `OperatorRecognizersSubsumed` shows it accepts everything 5 to 10 accept |
| Declarations.OperatorRecognizersSubsumed | scripts/validate-docs.py:119-125 | The conversion-operator and typed-operator recognizers are covered by the last recognizer |
| Declarations.KeywordOperatorIsWordOperator | scripts/validate-docs.py:119-124 | `implicit operator` and `explicit operator` are instances of `\w+\s+operator` |
| Declarations.AfterKeyword | scripts/validate-docs.py:116-125 | An optional `kw\s+` group matches only where the keyword stands and consumes at least one whitespace character |
| Declarations.VisibilityEnds | scripts/validate-docs.py:115-125 | Every match of the visibility prefix ends at a whitespace character of the line |
| Declarations.SkipWordOver | scripts/validate-docs.py:115 | `\w+` consumes exactly the word characters up to the first non-word character |
| Text.Split | scripts/validate-docs.py:74 | `split('\n')` gives at least one piece, and no piece holds a newline |
| Text.JoinSplit | scripts/validate-docs.py:74 | Joining the pieces of `split('\n')` with newlines gives back the text |
| Text.SplitJoin | scripts/validate-docs.py:103 | Splitting lines joined by `'\n'.join` gives back the lines, when none holds a newline |
| Text.SkipSpace | scripts/validate-docs.py:106 | `\s*` consumes exactly the whitespace up to the first non-space character |
| Text.Strip | scripts/validate-docs.py:81 | `strip()` never lengthens the line |
| Text.LStripDropsLeadingSpace | scripts/validate-docs.py:81 | Stripping on the left drops exactly the leading whitespace |
| Text.RStripIsPrefix | scripts/validate-docs.py:81 | Stripping on the right keeps a prefix that does not end in whitespace, and drops only whitespace |
| Text.ContainsAt | scripts/validate-docs.py:91 | `p in s` holds when `p` occurs at some position of `s` |
| Text.ContainsFound | scripts/validate-docs.py:91 | Conversely, `p in s` holds only when `p` occurs at some position of `s` |
| Text.ContainsIff | scripts/validate-docs.py:91-101 | `Contains`, which decides every marker flag, holds exactly when `p` occurs at some position of `s` |
| Text.IndexOfAbsent | scripts/validate-docs.py:74 | When a text has no newline, the search for one reaches the end |
| Text.IndexOfAfter | scripts/validate-docs.py:74 | The first newline of `s + "\n" + rest` is at `\|s\|` when `s` has none |
| Placeholders.CheckForPlaceholders | scripts/validate-docs.py:139-145 | A pattern is reported exactly when it matches the sample. Reports come in `PLACEHOLDER_PATTERNS` order with none twice, and there are at most five |
| Placeholders.MatchingPatterns | scripts/validate-docs.py:141-144 | Filtering the patterns in order keeps exactly the matching ones, in the same order |
| Placeholders.RankedTail | scripts/validate-docs.py:43-49 | In a list in pattern order, every pattern after the first comes later in `PLACEHOLDER_PATTERNS` |
| Placeholders.Pattern.Rank | scripts/validate-docs.py:43-49 | Each pattern has its position in `PLACEHOLDER_PATTERNS` |
| Placeholders.Pattern.Words | scripts/validate-docs.py:43-49 | Each pattern is a nonempty sequence of nonempty literals separated by `\s+` |
| Placeholders.Pattern.MatchesIn | scripts/validate-docs.py:143 | `re.search(pattern, code_content, re.IGNORECASE)`: the pattern's pieces match, case-insensitively, at some position. `MatchIgnoresCase` shows case does not matter |
| Placeholders.WordsAt | scripts/validate-docs.py:43-49 | The pieces of a pattern match at a position: each piece ignoring ASCII case, separated by `\s+` |
| Placeholders.RankedBound | scripts/validate-docs.py:43-49 | A list of patterns in strictly increasing pattern order has at most five entries |
| Placeholders.RankAtLeastIndex | scripts/validate-docs.py:43-49 | In such a list, the pattern at index `i` is at position `i` or later |
| CaseInsensitive.CheckIgnoresCase | scripts/validate-docs.py:143 | Lower-casing the sample does not change the report |
| CaseInsensitive.MatchIgnoresCase | scripts/validate-docs.py:143 | Lower-casing the sample does not change whether a pattern matches |
| CaseInsensitive.SameMatchesSameResult | scripts/validate-docs.py:141-144 | Two samples matched by the same patterns get the same report |
| CaseInsensitive.WordsAtIgnoresCase | scripts/validate-docs.py:143 | Two texts that differ only in letter case agree on whether a pattern matches at a position |
| CaseInsensitive.WordsAtStep | scripts/validate-docs.py:143 | If the rest of a pattern matches alike in two such texts, the whole pattern does |
| CaseFolding.LitAtIgnoresCase | scripts/validate-docs.py:143 | Two such texts agree on whether a literal matches case-insensitively at a position |
| CaseFolding.SkipSpaceIgnoresCase | scripts/validate-docs.py:143 | In two such texts, `\s+` runs equally far |
| CaseFolding.SpaceIgnoresCase | scripts/validate-docs.py:143 | Two such texts have whitespace at the same positions |
| CaseFolding.LowerAllSameUpToCase | scripts/validate-docs.py:143 | A text and its lower-cased copy differ only in letter case |
| CaseFolding.LowerAll | scripts/validate-docs.py:143 | Lower-casing keeps the length and lower-cases each character |
| Placeholders.EmptySampleIsClean | scripts/validate-docs.py:139-145 | An empty sample matches no pattern |
| Placeholders.SixDotsNotFive | scripts/validate-docs.py:48 | The dots pattern matches six dots and does not match five |
| Placeholders.LowerCaseTodo | scripts/validate-docs.py:46 | `todo` is reported as `TODO` |
| Validator.IssueType.Name | scripts/validate-docs.py:26 | The issue type is written `"error"` exactly for errors |
| Validator.PlaceholderWarnings | scripts/validate-docs.py:188-194 | One warning per reported pattern, in order |
| Validator.CheckBlock | scripts/validate-docs.py:165-194 | Every diagnostic of a block names the file and the block's `start_line` |
| Validator.CheckBlocks | scripts/validate-docs.py:165-196 | Every diagnostic of the block loop names the file and sits at the `start_line` of one of the blocks |
| Validator.ValidateFile | scripts/validate-docs.py:148-196 | Every diagnostic names the file. A file that cannot be read gives exactly one error, at line 0, whose message is `Could not read file: ` and the reason |
| Validator.CheckBlockShortCircuit | scripts/validate-docs.py:165-184 | A block has an error exactly when it lacks a summary, example or tagged sample. The error is then its only diagnostic and names the first missing part. A complete block gets only warnings |
| Validator.PlaceholderWarningsOfBlock | scripts/validate-docs.py:186-194 | A complete block gets a warning for a pattern exactly when its sample matches the pattern, and no other diagnostic: each one is the warning of a matching pattern. There are at most five warnings and none twice |
| Validator.PlaceholderWarningsInOrder | scripts/validate-docs.py:141-145 | The warnings of a complete block come in the order of `PLACEHOLDER_PATTERNS`: an earlier warning names a pattern of lower rank |
| Validator.WarningNamesPattern | scripts/validate-docs.py:193 | Different patterns give different warning messages |
| Validator.SourcesDiffer | scripts/validate-docs.py:43-49 | The five pattern texts are distinct |
| Validator.CheckBlocksIsUnion | scripts/validate-docs.py:165-196 | A file's diagnostics are exactly the diagnostics of its blocks |
| Validator.ReadableFileLines | scripts/validate-docs.py:163-196 | Every diagnostic of a readable file is at line 1 or later. It sits at a block's `start_line`, never at its `member_line` |
| Validator.BlockStartsWithDocLine | scripts/validate-docs.py:170 | The line a block's diagnostics point at is a `///` line of the text |
| Validator.UndocumentedFileIsClean | scripts/validate-docs.py:163-196 | A text without `///` lines gives no diagnostic |

## Left out

- `find_src_files`, `main` and the reading of files are not modelled: they are file-system traversal, console output, colours, counters and the exit code.
  - A file is given as its text or as the reason reading failed, and the reason stands for the exception's message.
  - The newline translation that `read_text` applies happens before the model sees the text.
- Declarations are modelled, not `re` itself.
  - The eleven declaration regexes are written as predicates over the line, with the match position existentially quantified. Recognizers 5 to 8 share one predicate, `ConversionOperatorShape`, and 9 and 10 share `TypedOperatorShape`; each predicate is the disjunction of the regexes it covers.
  - `\w` is restricted to ASCII letters, digits and `_`.
  - `\s` and `str.strip` use Python's exact set of whitespace code points.
  - `re.IGNORECASE` is ASCII case folding. Unicode case folding is not modelled.
  - Text is a sequence of code points: no Unicode normalisation and no encoding.
- `NON_PRIVATE_PATTERN` is not modelled, because the source never uses it.
- The `member_type` and `member_name` fields are not modelled, because the source never assigns them.
- The `issue_type` strings are modelled as a two-valued type. `Name` gives the strings the source writes.
- `XmlDocBlock` is modelled as a value that `ExtractXmlDocBlocks` updates by reassignment, not as a mutable object.
  - The source mutates the open block in place, but never touches a block after appending it.
  - No aliasing is therefore observable, and the model does not track object identity.
- The dots pattern `\.\.\.\.\.\.` sits beside a comment that speaks of "five or more" dots. The model follows the code, which needs six consecutive dots; `SixDotsNotFive` states the difference.
