# Benchmark report parser: a Dafny model

`visualize_benchmark.py` draws charts from the text report that the Bitonic
Sort benchmark prints for several backends.
This project models the part that turns the report into data:
`parse_benchmark_file` and the first step of `create_mips_chart`, which picks
out the backends whose throughput was reported.

The parser does the following:

1. It locates the summary section with a DOTALL `re.search` for
   `RESUMO DO BENCHMARK.*?--- Bitonic Sort.*?\n(.*?)\n={50,}`. It raises if the
   pattern does not occur.
2. It strips the captured text and splits it on newlines, then drops the first
   two lines (the header line and its separator).
3. It passes over every line that is blank after stripping or that contains
   `---`.
4. It matches every other line against
   `(.+?)\s{2,}(\d+\.?\d*)\s{2,}([\d.]+|N/A)\s{2,}([\d.]+)x`. A matching line
   adds one entry to each of four parallel lists:
   - the stripped name;
   - the time;
   - the throughput (MIPS), or `None` for `N/A`;
   - the speedup.

   A token that `float` refuses raises and ends the parse.

Modules:

- `Text`: Python's `str.isspace` set, `strip`, `split('\n')`, `find` and `in`.
- `Decimal`: `float` on tokens of digits and dots, as exact reals.
- `Section`: the section search, proved to return the match that a
  backtracking search tries first.
- `RowPattern`: the row match, proved to return the match with the shortest
  name. Once the name's end is fixed, the rest of the match is unique.
- `Report`: the line outcomes, the parse as a function (`ParseReport`), the
  parse as the source's loop (`ParseBenchmarkFile`), and the properties of the
  result.
- `Samples`: rows in the report's own format and what the parser makes of each.
- `Throughput`: the filter loop over `zip(backends, avg_mips)` and the colour
  lookup `colors[i]`.

Two details of the source matter:

- A line is passed over when it contains `---` anywhere.
- The name group is lazy (`.+?`), so the shortest name wins.

## Model

| member | source | states |
|---|---|---|
| Text.IsSpace | visualize_benchmark.py:50 | The characters `str.isspace()` and the `\s` class accept. `Text.Strip`, `RowPattern.MatchRow` and `Text.NotInSpace` are stated in terms of it. |
| Text.Strip | visualize_benchmark.py:35 | `strip()` removes exactly the leading and trailing whitespace, using Python's whitespace set. The result is empty iff the text is all whitespace; otherwise it starts and ends with non-whitespace. |
| Text.NoRuleAcross | visualize_benchmark.py:44 | Appending text without a `-` to text without `---` gives text without `---`. |
| Text.StripUnpadded | visualize_benchmark.py:55 | Stripping a name that neither starts nor ends with whitespace leaves it unchanged. |
| Text.Contains | visualize_benchmark.py:44 | `pat in s` holds iff `pat` occurs at some index of `s`. |
| Text.FindFrom | visualize_benchmark.py:26-30 | The first occurrence at or after a position, or none when there is none. This is how each lazy `.*?` of the section pattern stops. |
| Text.Split | visualize_benchmark.py:35 | `split('\n')` gives at least one piece, and no piece contains a newline. Joining the pieces with newlines gives back the text. |
| Text.SplitJoin | visualize_benchmark.py:35 | Splitting newline-joined, newline-free lines gives back exactly those lines. |
| Decimal.ParseDecimal | visualize_benchmark.py:56-65 | `float()` of a numeric token: an accepted token is made of digits and dots and has a non-negative value. Which tokens it accepts and their values are given by `Decimal.ParseDecimalAccepts`, `Decimal.ParseInteger` and `Decimal.ParseFraction`. |
| Decimal.ParseDecimalAccepts | visualize_benchmark.py:56-65 | `float` accepts a token iff it is made of digits and dots, has at most one dot, and is not a dot alone. |
| Decimal.ParseInteger | visualize_benchmark.py:56-65 | A token of digits reads as the integer those digits denote. |
| Decimal.ParseFraction | visualize_benchmark.py:56-65 | Digits, a dot and digits read as the whole part plus the fraction over the power of ten. |
| Decimal.FractionValue | visualize_benchmark.py:56-65 | Reading the digits of both parts as one integer and dividing by ten to the number of fraction digits gives the value of the numeral. |
| Decimal.DigitsValueAppend | visualize_benchmark.py:56-65 | The value of two digit strings written one after the other is the first value shifted by the second's length plus the second value. |
| Decimal.TimeTokenParses | visualize_benchmark.py:50-56 | Every time token that the row pattern admits (`\d+\.?\d*`) is accepted by `float`, so the time never raises. |
| Decimal.FractionToken | visualize_benchmark.py:50 | Digits, a dot and digits form a valid time token and a valid throughput token, with exactly one dot. |
| Section.Locate | visualize_benchmark.py:26-30 | The match returned is a match of the section pattern and comes no later than any other match in backtracking order. There is none iff the pattern does not occur. |
| Section.SummarySection | visualize_benchmark.py:26-33 | `group(1)` exists iff some match exists. It is the text from after the sub-header's line to the newline before the closing rule of the first match. |
| RowPattern.MatchWithNameEnd | visualize_benchmark.py:49-52 | Given where the name ends, the scanners return a match of the row pattern with that name end. |
| RowPattern.MatchDetermined | visualize_benchmark.py:49-52 | Every match is the one the scanners build from its name end. Greedy tokens and whitespace runs leave no other choice. |
| RowPattern.MatchUnique | visualize_benchmark.py:49-52 | Two matches with the same name end are the same match. |
| RowPattern.MatchFrom | visualize_benchmark.py:49-52 | The lazy search from a name length returns the match with the shortest name at or beyond it. It finds none only when every match has a shorter name. |
| RowPattern.MatchRow | visualize_benchmark.py:49-54 | `re.match` returns a match whose name is no longer than any other match's name. It returns none iff the line has no match. |
| RowPattern.MatchRowIsShortestName | visualize_benchmark.py:49-54 | A match whose name is shortest is exactly the match returned. |
| RowPattern.NoEarlierSeparator | visualize_benchmark.py:49-52 | A match is the one returned when no two whitespace characters in a row start inside its name, because every name must be followed by such a pair. |
| RowPattern.SingleSpacedJoin | visualize_benchmark.py:50 | Joining two single-spaced words with one character between them gives a single-spaced string when there is no whitespace at the seam. |
| RowPattern.LaidOutIsRowMatch | visualize_benchmark.py:49-52 | The offsets of a laid-out row form a match of the row pattern when its fields have the shapes the pattern admits. |
| RowPattern.LaidOutRowMatches | visualize_benchmark.py:48-52 | A row laid out as name, separator, time, separator, throughput, separator, speedup, `x` matches. Its four groups are exactly those fields, provided the name holds no two whitespace characters in a row and no trailing whitespace. |
| Report.IsPassedOver | visualize_benchmark.py:44-45 | A line is passed over when it is blank after stripping or contains `---`. `Report.LaidOutNotPassedOver` and `Samples.DashRuleSkipped` show which lines are and are not. |
| Report.RowFromMatch | visualize_benchmark.py:54-66 | Covers the figures of a matched row: a row results iff the speedup and the throughput (unless `N/A`) are accepted by `float`. The speedup's error is reported before the throughput's. The name is the stripped group. `N/A` gives an absent throughput, and each figure is `float` of its group. |
| Report.Classify | visualize_benchmark.py:44-66 | What one line contributes: skipped, a row, or an error. Its meaning is given by `Report.MatchedLineOutcome`, `Report.SkippedLineChangesNothing`, `Report.LineFailsOnNumber` and `Report.LaidOutRowParses`. |
| Report.CollectRows | visualize_benchmark.py:43-66 | The loop over the body lines as a function: the rows in order, or the first error. Its meaning is given by `Report.CollectRowsIsAccumulate`, `Report.RowsFollowParsedLines` and `Report.FirstFailureReported`. |
| Report.BodyLines | visualize_benchmark.py:43 | `summary_lines[2:]`: the lines after the header line and its separator; `Report.HeaderLinesNeverParsed` states it. |
| Report.FailurePersists | visualize_benchmark.py:43-66 | Once a line has raised, later lines change nothing. |
| Report.Columns | visualize_benchmark.py:37-40 | The four lists have one length, and entry `i` of each list comes from row `i`. |
| Report.ColumnsSnoc | visualize_benchmark.py:60-66 | Appending a row appends one entry to each of the four lists. |
| Report.ReadLine | visualize_benchmark.py:44-66 | The body of the loop for one line: whether the line is passed over, yields a row or raises is what `Classify` specifies, and it can only raise on a number. |
| Report.ParseReport | visualize_benchmark.py:16-73 | What `parse_benchmark_file` returns or raises. Its meaning is given by `Report.ParseReportCharacterized`, `Report.MissingSectionFails` and `Report.HeaderLinesNeverParsed`. |
| Report.ParseBenchmarkFile | visualize_benchmark.py:16-73 | The loop over the body lines returns what `ParseReport` specifies, and its four lists have one length. |
| Report.CollectRowsIsAccumulate | visualize_benchmark.py:43-66 | Collecting rows line by line is the fold of the per-line step over the lines' outcomes. |
| Report.ParsedIndices | visualize_benchmark.py:43-66 | The positions of the lines that yield a row, strictly increasing and each pointing at such a line. |
| Report.RowsFollowParsedLines | visualize_benchmark.py:43-66 | There is one row per parsed line and no other, in line order. Row `k` is the row of the `k`-th parsed line. |
| Report.FirstFailureReported | visualize_benchmark.py:43-66 | The parse fails iff some line fails, and the error is that of the first failing line. |
| Report.SkippedOutcomeChangesNothing | visualize_benchmark.py:44-45 | Removing a skipped outcome from anywhere leaves the result unchanged. |
| Report.OutcomesAppend | visualize_benchmark.py:43 | The outcomes of two runs of lines, one after the other, are the outcomes of each run, one after the other. |
| Report.SkippedLineChangesNothing | visualize_benchmark.py:44-54 | A line that yields nothing (blank, a rule, or no match) can be removed from anywhere in the body without changing the result. |
| Report.MatchNeedsSeparatorAndSuffix | visualize_benchmark.py:49-54 | A matching line contains two whitespace characters in a row and an `x`. A line that lacks either is passed over. |
| Report.HeaderLinesNeverParsed | visualize_benchmark.py:35-43 | Whatever the first two lines of the stripped section hold, the body is exactly the lines after them. |
| Report.LineFailsOnNumber | visualize_benchmark.py:56-65 | A body line can only fail on a number. |
| Report.BodyFailsOnNumber | visualize_benchmark.py:43-66 | Parsing a body can only fail on a number. |
| Report.MissingSectionFails | visualize_benchmark.py:26-33 | The parse raises the missing-section error iff the section pattern matches nowhere. |
| Report.ParseReportCharacterized | visualize_benchmark.py:16-73 | When the section is present, the four lists hold one entry per parsed body line, in order, each taken from that line. Otherwise the error is that of the first failing line. |
| Report.NoDashInNumber | visualize_benchmark.py:44 | A numeric token holds no `-`. |
| Report.MatchedLineOutcome | visualize_benchmark.py:54-66 | What a matched line that is not passed over contributes, in terms of its four groups. This includes the order in which the errors are reported. |
| Report.LaidOutNotPassedOver | visualize_benchmark.py:44-45 | A laid-out row whose name does not start with whitespace and holds no `---` is neither blank nor a separator. Single dashes in the name (`C-Native`) are allowed. |
| Report.LaidOutRowParses | visualize_benchmark.py:44-66 | A row laid out from its fields reads back as those fields, for any name without a newline, a `---`, two whitespace characters in a row or whitespace at either end. The name is kept as given, the numbers become their exact values, and `N/A` becomes an absent throughput. A malformed speedup raises, and otherwise a malformed throughput raises. |
| Samples.ReadsAs | visualize_benchmark.py:56-65 | A token of digits, a dot and digits reads as the value those digits denote. |
| Samples.GpuRowParsed | visualize_benchmark.py:49-66 | `GPU Kernel  0.012  N/A  4067.75x` gives the name `GPU Kernel`, time 0.012, no throughput and speedup 4067.75, with separators of any width. |
| Samples.InterpreterRowParsed | visualize_benchmark.py:48-66 | The sample row in the source comment gives `Rust Interpreter (Sequential)`, 48.813, 25.986 and 1.0, with the parenthesised qualifier kept. |
| Samples.TwoDotThroughputFails | visualize_benchmark.py:62-65 | A throughput `1.2.3` fits `[\d.]+`, but `float` refuses it and the line raises. |
| Samples.SpeedupReportedFirst | visualize_benchmark.py:56-65 | With a bad throughput and a bad speedup, the speedup's error is the one raised. |
| Samples.MissingSuffixSkipped | visualize_benchmark.py:49-54 | A row without the `x` suffix is passed over. |
| Samples.HyphenatedNameParsed | visualize_benchmark.py:44-66 | `C-Native  1.5  N/A  2.00x` is not a separator line: it gives the name `C-Native`, time 1.5, no throughput and speedup 2.0, with separators of any width. |
| Samples.SingleSpacesSkipped | visualize_benchmark.py:49-54 | The GPU row written with single spaces (`GPU Kernel 0.012 N/A 4067.75x`) is passed over. The general case is `Report.MatchNeedsSeparatorAndSuffix`. |
| Samples.DashRuleSkipped | visualize_benchmark.py:44-45 | A rule of dashes is passed over. |
| Samples.MalformedNumbersRefused | visualize_benchmark.py:58-65 | `float` refuses `.` and `1.2.3`. |
| Throughput.PresentPositions | visualize_benchmark.py:191-195 | The positions below the bound whose throughput is present, strictly increasing. |
| Throughput.PresentPositionsComplete | visualize_benchmark.py:191-195 | No present throughput below the bound is left out. |
| Throughput.FilterPresent | visualize_benchmark.py:187-195 | The loop over `zip` stops at the shorter list. Its positions are exactly the present positions. Each kept backend and value is the one at its position. |
| Throughput.PaletteColors | visualize_benchmark.py:199-200 | Gives the palette colour at each position iff every position is below four. Otherwise it gives the first position past the palette, where `IndexError` is raised. |
| Throughput.ColoursFailAt | visualize_benchmark.py:191-200 | When colouring fails, it fails at the first present throughput at position four or later. |
| Throughput.ColoursSucceed | visualize_benchmark.py:191-200 | When colouring succeeds, no throughput is present at position four or later. |
| Throughput.ColoursFailOnFifthThroughput | visualize_benchmark.py:191-200 | Colouring the throughput bars raises iff a backend at position four or later reports a throughput. |
| Throughput.FilterSeesEveryBackend | visualize_benchmark.py:68-73 | For a parsed summary, the backend and throughput lists have one length, so `zip` looks at every backend. |

## Left out

- Reading the file and decoding UTF-8 (lines 23-24) are left out. The model takes the decoded text as its input.
- The command line, `main`, and every chart drawn with matplotlib are not part of this model. This covers bar drawing, value labels, titles, tick labels and saving images. Only the filter and colour lookup at the start of `create_mips_chart` are modelled.
- `Decimal.ParseDecimal`: gives the exact rational value of the token, not the nearest IEEE-754 double that `float` returns. Rounding is not modelled.
- Only ASCII digits are modelled for `\d` and `float`. Python also accepts other Unicode decimal digits there.
- `float` also accepts signs, exponents, underscores and surrounding whitespace. None of these can occur in a token the patterns admit, so they are not modelled.
- The exception types and messages are reduced to two cases: a missing section, or the token that `float` refused.
- The lists as they stood when an exception was raised are not modelled. The exception discards them, so they are never observable.
- The regular expressions are modelled by what they match. The backtracking engine's steps and running time are not modelled.
