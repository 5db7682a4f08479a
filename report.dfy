/**
 * `parse_benchmark_file` on the text of a report: locate the summary section,
 * strip it, split it into lines, drop the first two, and turn every remaining
 * line that fits the row pattern into one entry of four parallel lists.
 */
module Report {
  import opened Wrappers
  import opened Text
  import opened Decimal
  import opened Section
  import opened RowPattern

  /** Why parsing stops: no summary section, or `float()` refused a token the row pattern accepted. */
  datatype ParseError =
    | SectionNotFound
    | InvalidNumber(token: string)

  /** One backend's figures, as read from one summary row. */
  datatype Row = Row(name: string, time: real, mips: Option<real>, speedup: real)

  /** The dictionary the parser returns: four lists, one entry per parsed row. */
  datatype BenchmarkSummary = BenchmarkSummary(
    backends: seq<string>,
    avgTimes: seq<real>,
    avgMips: seq<Option<real>>,
    speedups: seq<real>)

  /** What one line of the section body contributes. */
  datatype LineOutcome = Skipped | Parsed(row: Row) | Failed(error: ParseError)

  /** Lines passed over before matching: blank after stripping, or holding "---" anywhere. */
  predicate IsPassedOver(line: string) {
    Strip(line) == [] || Contains(line, "---")
  }

  /** A token of `[\d.]+` that `float` accepts: at most one dot, and not dots alone. */
  predicate IsWellFormedNumber(tok: string) {
    Dots(tok) <= 1 && Dots(tok) < |tok|
  }

  /**
   * The figures of a matched row. The speedup is converted before the
   * throughput, so when both tokens are malformed the speedup is reported.
   */
  function RowFromMatch(line: string, m: RowMatch): (r: Result<Row, ParseError>)
    requires IsRowMatch(line, m)
    ensures r.Ok? <==> IsWellFormedNumber(SpeedGroup(line, m))
                       && (MipsGroup(line, m) == "N/A" || IsWellFormedNumber(MipsGroup(line, m)))
    ensures r.Err? && IsWellFormedNumber(SpeedGroup(line, m)) ==> r.error == InvalidNumber(MipsGroup(line, m))
    ensures r.Err? && !IsWellFormedNumber(SpeedGroup(line, m)) ==> r.error == InvalidNumber(SpeedGroup(line, m))
    ensures r.Ok? ==> r.value.name == Strip(NameGroup(line, m))
    ensures r.Ok? ==> (r.value.mips.None? <==> MipsGroup(line, m) == "N/A")
    ensures r.Ok? ==> ParseDecimal(TimeGroup(line, m)) == Some(r.value.time)
    ensures r.Ok? && MipsGroup(line, m) != "N/A" ==> ParseDecimal(MipsGroup(line, m)) == r.value.mips
    ensures r.Ok? ==> ParseDecimal(SpeedGroup(line, m)) == Some(r.value.speedup)
  {
    var timeTok, mipsTok, speedTok := TimeGroup(line, m), MipsGroup(line, m), SpeedGroup(line, m);
    TimeTokenParses(timeTok);
    ParseDecimalAccepts(speedTok);
    ParseDecimalAccepts(mipsTok);
    var time := ParseDecimal(timeTok).value;
    var speed := ParseDecimal(speedTok);
    if speed.None? then Err(InvalidNumber(speedTok))
    else if mipsTok == "N/A" then Ok(Row(Strip(NameGroup(line, m)), time, None, speed.value))
    else
      var mips := ParseDecimal(mipsTok);
      if mips.None? then Err(InvalidNumber(mipsTok))
      else Ok(Row(Strip(NameGroup(line, m)), time, Some(mips.value), speed.value))
  }

  /** One iteration of the loop over the section body. */
  function Classify(line: string): LineOutcome {
    if IsPassedOver(line) then Skipped
    else
      var m := MatchRow(line);
      if m.None? then Skipped
      else
        var row := RowFromMatch(line, m.value);
        if row.Err? then Failed(row.error) else Parsed(row.value)
  }

  /** The effect of one more line on the rows collected so far: the first error sticks. */
  function Step(prev: Result<seq<Row>, ParseError>, outcome: LineOutcome): Result<seq<Row>, ParseError> {
    if prev.Err? then prev
    else
      match outcome
      case Skipped => prev
      case Parsed(row) => Ok(prev.value + [row])
      case Failed(e) => Err(e)
  }

  /** The rows a run of body lines yields, or the first error it raises, line by line in order. */
  function CollectRows(lines: seq<string>): Result<seq<Row>, ParseError> {
    if lines == [] then Ok([])
    else Step(CollectRows(lines[..|lines| - 1]), Classify(lines[|lines| - 1]))
  }

  lemma CollectRowsExtend(lines: seq<string>, i: nat)
    requires i < |lines|
    ensures CollectRows(lines[..i + 1]) == Step(CollectRows(lines[..i]), Classify(lines[i]))
  {
    assert lines[..i + 1][..i] == lines[..i];
  }

  /** Once a line has raised, later lines change nothing: the parse ends with that error. */
  lemma {:induction false} FailurePersists(lines: seq<string>, i: nat)
    requires i <= |lines| && CollectRows(lines[..i]).Err?
    ensures CollectRows(lines) == CollectRows(lines[..i])
    decreases |lines| - i
  {
    if i == |lines| {
      assert lines[..i] == lines;
    } else {
      CollectRowsExtend(lines, i);
      FailurePersists(lines, i + 1);
    }
  }

  /** `summary_lines[2:]`: the section without its header line and the separator under it. */
  function BodyLines(lines: seq<string>): seq<string> {
    if |lines| <= 2 then [] else lines[2..]
  }

  /** The four parallel lists built from a sequence of rows. */
  function Columns(rows: seq<Row>): (s: BenchmarkSummary)
    ensures |s.backends| == |s.avgTimes| == |s.avgMips| == |s.speedups| == |rows|
    ensures forall i :: 0 <= i < |rows| ==>
      rows[i] == Row(s.backends[i], s.avgTimes[i], s.avgMips[i], s.speedups[i])
  {
    BenchmarkSummary(
      seq(|rows|, i requires 0 <= i < |rows| => rows[i].name),
      seq(|rows|, i requires 0 <= i < |rows| => rows[i].time),
      seq(|rows|, i requires 0 <= i < |rows| => rows[i].mips),
      seq(|rows|, i requires 0 <= i < |rows| => rows[i].speedup))
  }

  /** Appending a row appends one entry to each of the four lists. */
  lemma ColumnsSnoc(rows: seq<Row>, row: Row)
    ensures var c := Columns(rows);
      Columns(rows + [row])
      == BenchmarkSummary(c.backends + [row.name], c.avgTimes + [row.time], c.avgMips + [row.mips], c.speedups + [row.speedup])
  {
    var c, d := Columns(rows), Columns(rows + [row]);
    assert d.backends == c.backends + [row.name];
    assert d.avgTimes == c.avgTimes + [row.time];
    assert d.avgMips == c.avgMips + [row.mips];
    assert d.speedups == c.speedups + [row.speedup];
  }

  /** The body lines of the summary section of `content`. */
  function ReportBody(content: string): seq<string>
    requires SummarySection(content).Some?
  {
    BodyLines(Split(Strip(SummarySection(content).value), '\n'))
  }

  /** What `parse_benchmark_file` returns or raises for a report whose text is `content`. */
  function ParseReport(content: string): Result<BenchmarkSummary, ParseError> {
    if SummarySection(content).None? then Err(SectionNotFound)
    else
      var rows := CollectRows(ReportBody(content));
      if rows.Err? then Err(rows.error) else Ok(Columns(rows.value))
  }

  /**
   * One pass of the loop body: pass over blank lines and rules, match the
   * row pattern, and convert the figures of a match. It follows `Classify`
   * step by step so that the loop body is verified on its own.
   */
  method ReadLine(line: string) returns (outcome: LineOutcome)
    ensures outcome == Classify(line)
    ensures outcome.Failed? ==> outcome.error.InvalidNumber?
  {
    if Strip(line) == [] || Contains(line, "---") {
      return Skipped;
    }
    var found := MatchRow(line);
    if found.None? {
      return Skipped;
    }
    var parsed := RowFromMatch(line, found.value);
    if parsed.Err? {
      return Failed(parsed.error);
    }
    return Parsed(parsed.value);
  }

  /**
   * The parser as the source writes it: one pass over the body lines that
   * appends to four lists and stops at the first malformed number.
   */
  method ParseBenchmarkFile(content: string) returns (r: Result<BenchmarkSummary, ParseError>)
    ensures r == ParseReport(content)
    ensures r.Ok? ==> |r.value.backends| == |r.value.avgTimes| == |r.value.avgMips| == |r.value.speedups|
  {
    var section := SummarySection(content);
    if section.None? {
      return Err(SectionNotFound);
    }
    var summaryLines := Split(Strip(section.value), '\n');
    var body := BodyLines(summaryLines);
    assert body == ReportBody(content);
    var backends: seq<string>, avgTimes: seq<real>, avgMips: seq<Option<real>>, speedups: seq<real> := [], [], [], [];
    ghost var rows: seq<Row> := [];
    var i := 0;
    while i < |body|
      invariant 0 <= i <= |body|
      invariant CollectRows(body[..i]) == Ok(rows)
      invariant BenchmarkSummary(backends, avgTimes, avgMips, speedups) == Columns(rows)
    {
      var outcome := ReadLine(body[i]);
      CollectRowsExtend(body, i);
      if outcome.Failed? {
        FailurePersists(body, i + 1);
        return Err(outcome.error);
      }
      if outcome.Parsed? {
        var row := outcome.row;
        backends := backends + [row.name];
        avgTimes := avgTimes + [row.time];
        avgMips := avgMips + [row.mips];
        speedups := speedups + [row.speedup];
        ColumnsSnoc(rows, row);
        rows := rows + [row];
      }
      i := i + 1;
    }
    assert body[..i] == body;
    return Ok(BenchmarkSummary(backends, avgTimes, avgMips, speedups));
  }

  /** `f` applied to every line, in order. */
  function MapLines<T>(f: string -> T, lines: seq<string>): (o: seq<T>)
    ensures |o| == |lines|
    ensures forall i :: 0 <= i < |lines| ==> o[i] == f(lines[i])
  {
    if lines == [] then []
    else MapLines(f, lines[..|lines| - 1]) + [f(lines[|lines| - 1])]
  }

  /** Mapping over two runs of lines, one after the other, maps each run in turn. */
  lemma {:induction false} MapLinesAppend<T>(f: string -> T, a: seq<string>, b: seq<string>)
    ensures MapLines(f, a + b) == MapLines(f, a) + MapLines(f, b)
    decreases |b|
  {
    if b == [] {
      assert a + b == a;
    } else {
      var init := b[..|b| - 1];
      MapLinesAppend(f, a, init);
      assert (a + b)[..|a + b| - 1] == a + init && (a + b)[|a + b| - 1] == b[|b| - 1];
    }
  }

  /** The outcome of every body line, in order. */
  function Outcomes(lines: seq<string>): (o: seq<LineOutcome>)
    ensures |o| == |lines|
    ensures forall i :: 0 <= i < |lines| ==> o[i] == Classify(lines[i])
  {
    MapLines(Classify, lines)
  }

  /** `Step` folded over a run of outcomes from the empty list of rows. */
  function Accumulate(outcomes: seq<LineOutcome>): Result<seq<Row>, ParseError> {
    if outcomes == [] then Ok([])
    else Step(Accumulate(outcomes[..|outcomes| - 1]), outcomes[|outcomes| - 1])
  }

  /** Collecting rows is folding `Step` over the outcomes of the lines. */
  lemma {:induction false} CollectRowsIsAccumulate(lines: seq<string>)
    ensures CollectRows(lines) == Accumulate(Outcomes(lines))
  {
    if lines != [] {
      var init := lines[..|lines| - 1];
      CollectRowsIsAccumulate(init);
      assert Outcomes(lines)[..|lines| - 1] == Outcomes(init);
    }
  }

  /** The positions of the outcomes that are rows, in increasing order. */
  function ParsedIndices(outcomes: seq<LineOutcome>): (idx: seq<nat>)
    ensures forall k :: 0 <= k < |idx| ==> idx[k] < |outcomes| && outcomes[idx[k]].Parsed?
    ensures forall k, l :: 0 <= k < l < |idx| ==> idx[k] < idx[l]
    ensures forall i :: 0 <= i < |outcomes| && outcomes[i].Parsed? ==> i in idx
  {
    if outcomes == [] then []
    else
      var init := outcomes[..|outcomes| - 1];
      var prev := ParsedIndices(init);
      if outcomes[|outcomes| - 1].Parsed? then prev + [|outcomes| - 1] else prev
  }

  /**
   * The rows come out in the order of the outcomes that carry them, one row
   * per such outcome and no other: row k is the row of the k-th parsed line.
   */
  lemma {:induction false} RowsFollowParsedLines(outcomes: seq<LineOutcome>)
    requires Accumulate(outcomes).Ok?
    ensures |Accumulate(outcomes).value| == |ParsedIndices(outcomes)|
    ensures forall k :: 0 <= k < |ParsedIndices(outcomes)| ==>
      outcomes[ParsedIndices(outcomes)[k]] == Parsed(Accumulate(outcomes).value[k])
  {
    if outcomes != [] {
      var init := outcomes[..|outcomes| - 1];
      RowsFollowParsedLines(init);
    }
  }

  /** The fold fails exactly when some outcome fails, and the error is that of the first failure. */
  lemma {:induction false} FirstFailureReported(outcomes: seq<LineOutcome>)
    ensures Accumulate(outcomes).Ok? <==> forall i :: 0 <= i < |outcomes| ==> !outcomes[i].Failed?
    ensures Accumulate(outcomes).Err? ==>
      exists i :: 0 <= i < |outcomes| && outcomes[i] == Failed(Accumulate(outcomes).error)
                  && forall j :: 0 <= j < i ==> !outcomes[j].Failed?
  {
    if outcomes != [] {
      var init := outcomes[..|outcomes| - 1];
      FirstFailureReported(init);
    }
  }

  /** A skipped outcome may be removed from anywhere without changing the fold. */
  lemma {:induction false} SkippedOutcomeChangesNothing(before: seq<LineOutcome>, after: seq<LineOutcome>)
    ensures Accumulate(before + [Skipped] + after) == Accumulate(before + after)
    decreases |after|
  {
    if after == [] {
      assert before + [Skipped] + after == before + [Skipped];
      assert (before + [Skipped])[..|before|] == before;
      assert before + after == before;
    } else {
      var init := after[..|after| - 1];
      SkippedOutcomeChangesNothing(before, init);
      assert (before + [Skipped] + after)[..|before + [Skipped] + after| - 1] == before + [Skipped] + init;
      assert (before + after)[..|before + after| - 1] == before + init;
    }
  }

  lemma OutcomesAppend(a: seq<string>, b: seq<string>)
    ensures Outcomes(a + b) == Outcomes(a) + Outcomes(b)
  {
    MapLinesAppend(Classify, a, b);
  }

  /** A body line that yields nothing may be removed from anywhere in the body without changing the outcome. */
  lemma SkippedLineChangesNothing(before: seq<string>, line: string, after: seq<string>)
    requires Classify(line) == Skipped
    ensures CollectRows(before + [line] + after) == CollectRows(before + after)
  {
    CollectRowsIsAccumulate(before + [line] + after);
    CollectRowsIsAccumulate(before + after);
    OutcomesAppend(before + [line], after);
    OutcomesAppend(before, [line]);
    OutcomesAppend(before, after);
    assert Outcomes([line]) == [Skipped];
    SkippedOutcomeChangesNothing(Outcomes(before), Outcomes(after));
  }

  /**
   * A matching line holds two whitespace characters in a row (the first
   * separator) and an 'x' (the speedup suffix); a line lacking either is
   * passed over.
   */
  lemma MatchNeedsSeparatorAndSuffix(line: string)
    ensures MatchRow(line).Some? ==>
      && 'x' in line
      && exists k :: 0 <= k < |line| - 1 && IsSpace(line[k]) && IsSpace(line[k + 1])
  {
    if MatchRow(line).Some? {
      var m := MatchRow(line).value;
      assert line[m.speedEnd] == 'x';
      assert IsSpace(line[m.nameEnd]) && IsSpace(line[m.nameEnd + 1]);
    }
  }

  /**
   * Whatever the first two lines of the stripped section hold, they are
   * never parsed: the body is exactly the lines after them.
   */
  lemma HeaderLinesNeverParsed(content: string, header: string, separator: string, rest: seq<string>)
    requires SummarySection(content).Some?
    requires Strip(SummarySection(content).value) == Join([header, separator] + rest, '\n')
    requires '\n' !in header && '\n' !in separator
    requires forall k :: 0 <= k < |rest| ==> '\n' !in rest[k]
    ensures ReportBody(content) == rest
  {
    var pieces := [header, separator] + rest;
    LinesAfterHeader(header, separator, rest);
    SplitJoin(pieces, '\n');
    assert pieces[2..] == rest;
  }

  lemma LinesAfterHeader(header: string, separator: string, rest: seq<string>)
    requires '\n' !in header && '\n' !in separator
    requires forall k :: 0 <= k < |rest| ==> '\n' !in rest[k]
    ensures forall k :: 0 <= k < |[header, separator] + rest| ==> '\n' !in ([header, separator] + rest)[k]
  {
    var pieces := [header, separator] + rest;
    forall k | 0 <= k < |pieces| ensures '\n' !in pieces[k] {
      if k >= 2 { assert pieces[k] == rest[k - 2]; }
    }
  }

  /** A body line can only fail on a number. */
  lemma LineFailsOnNumber(line: string)
    ensures Classify(line).Failed? ==> Classify(line).error.InvalidNumber?
  {
  }

  /** Parsing a body can only fail on a number. */
  lemma BodyFailsOnNumber(lines: seq<string>)
    ensures CollectRows(lines).Err? ==> CollectRows(lines).error.InvalidNumber?
  {
    CollectRowsIsAccumulate(lines);
    FirstFailureReported(Outcomes(lines));
    if CollectRows(lines).Err? {
      var i :| 0 <= i < |lines| && Outcomes(lines)[i] == Failed(CollectRows(lines).error);
      LineFailsOnNumber(lines[i]);
    }
  }

  /** The parse fails with `SectionNotFound` exactly when the section pattern matches nowhere. */
  lemma MissingSectionFails(content: string)
    ensures ParseReport(content) == Err(SectionNotFound) <==> forall m :: !IsMatch(content, m)
  {
    if SummarySection(content).Some? {
      BodyFailsOnNumber(ReportBody(content));
    }
  }

  /**
   * The parse result in full: with a section present, the four lists hold
   * one entry per parsed body line, in order, each entry taken from that
   * line; otherwise the error is that of the first failing line.
   */
  lemma ParseReportCharacterized(content: string)
    requires SummarySection(content).Some?
    ensures var outcomes := Outcomes(ReportBody(content));
      var idx := ParsedIndices(outcomes);
      match ParseReport(content)
      case Ok(s) =>
        && |s.backends| == |s.avgTimes| == |s.avgMips| == |s.speedups| == |idx|
        && forall k :: 0 <= k < |idx| ==>
             outcomes[idx[k]] == Parsed(Row(s.backends[k], s.avgTimes[k], s.avgMips[k], s.speedups[k]))
      case Err(e) =>
        exists i :: 0 <= i < |outcomes| && outcomes[i] == Failed(e)
                    && forall j :: 0 <= j < i ==> !outcomes[j].Failed?
  {
    var body := ReportBody(content);
    CollectRowsIsAccumulate(body);
    FirstFailureReported(Outcomes(body));
    if CollectRows(body).Ok? {
      RowsFollowParsedLines(Outcomes(body));
    }
  }

  lemma NoDashInNumber(tok: string)
    requires IsDigitsAndDots(tok)
    ensures '-' !in tok
  {
    forall k | 0 <= k < |tok| ensures tok[k] != '-' {
      assert IsDigit(tok[k]) || tok[k] == '.';
    }
  }



  /** What a matched line that is not passed over contributes, in terms of its four groups. */
  lemma MatchedLineOutcome(line: string)
    requires !IsPassedOver(line) && MatchRow(line).Some?
    ensures var m, outcome := MatchRow(line).value, Classify(line);
      var time, mips, speed := TimeGroup(line, m), MipsGroup(line, m), SpeedGroup(line, m);
      && (outcome.Parsed? <==> IsWellFormedNumber(speed) && (mips == "N/A" || IsWellFormedNumber(mips)))
      && (outcome.Parsed? ==>
            && outcome.row.name == Strip(NameGroup(line, m))
            && ParseDecimal(time) == Some(outcome.row.time)
            && (mips == "N/A" ==> outcome.row.mips == None)
            && (mips != "N/A" ==> ParseDecimal(mips) == outcome.row.mips)
            && ParseDecimal(speed) == Some(outcome.row.speedup))
      && (!IsWellFormedNumber(speed) ==> outcome == Failed(InvalidNumber(speed)))
      && (IsWellFormedNumber(speed) && mips != "N/A" && !IsWellFormedNumber(mips) ==>
            outcome == Failed(InvalidNumber(mips)))
  {
    var m := MatchRow(line).value;
    var r := RowFromMatch(line, m);
    assert Classify(line) == if r.Err? then Failed(r.error) else Parsed(r.value);
  }

  /** Everything a laid-out row holds after its name: separators, numbers and the suffix, none with a '-'. */
  lemma LaidOutTailHasNoDash(gap1: string, time: string, gap2: string, mips: string, gap3: string, speed: string)
    requires AllSpace(gap1) && AllSpace(gap2) && AllSpace(gap3)
    requires IsTimeToken(time) && (IsDigitsAndDots(mips) || mips == "N/A") && IsDigitsAndDots(speed)
    ensures '-' !in gap1 + time + gap2 + mips + gap3 + speed + "x"
  {
    NotInSpace(gap1, '-');
    NotInSpace(gap2, '-');
    NotInSpace(gap3, '-');
    TimeTokenParses(time);
    NoDashInNumber(time);
    NoDashInNumber(speed);
    if mips != "N/A" {
      NoDashInNumber(mips);
    }
  }

  /**
   * A laid-out row is neither blank nor a separator when its name does not
   * start with whitespace and holds no `---`; single dashes in the name
   * (`C-Native`, `Multi-thread`) do not make it a separator.
   */
  lemma LaidOutNotPassedOver(name: string, gap1: string, time: string, gap2: string, mips: string, gap3: string, speed: string)
    requires name != [] && !Contains(name, "---") && !IsSpace(name[0])
    requires AllSpace(gap1) && AllSpace(gap2) && AllSpace(gap3)
    requires IsTimeToken(time) && (IsDigitsAndDots(mips) || mips == "N/A") && IsDigitsAndDots(speed)
    ensures !IsPassedOver(LaidOut(name, gap1, time, gap2, mips, gap3, speed))
  {
    var line := LaidOut(name, gap1, time, gap2, mips, gap3, speed);
    var tail := gap1 + time + gap2 + mips + gap3 + speed + "x";
    assert line == name + tail;
    LaidOutTailHasNoDash(gap1, time, gap2, mips, gap3, speed);
    NoRuleAcross(name, tail);
    assert line[0] == name[0];
    assert !AllSpace(line);
  }

  /**
   * A row laid out from its fields reads back as those fields: the name as
   * given, the numbers as their exact decimal values, "N/A" as an absent
   * throughput; a malformed speedup, then a malformed throughput, raises.
   */
  lemma LaidOutRowParses(name: string, gap1: string, time: string, gap2: string, mips: string, gap3: string, speed: string)
    requires name != [] && '\n' !in name && !Contains(name, "---") && SingleSpaced(name)
    requires !IsSpace(name[0]) && !IsSpace(name[|name| - 1])
    requires |gap1| >= 2 && |gap2| >= 2 && |gap3| >= 2 && AllSpace(gap1) && AllSpace(gap2) && AllSpace(gap3)
    requires IsTimeToken(time) && (IsDigitsAndDots(mips) || mips == "N/A") && IsDigitsAndDots(speed)
    ensures var outcome := Classify(LaidOut(name, gap1, time, gap2, mips, gap3, speed));
      && (outcome.Parsed? <==> IsWellFormedNumber(speed) && (mips == "N/A" || IsWellFormedNumber(mips)))
      && (outcome.Parsed? ==>
            && outcome.row.name == name
            && ParseDecimal(time) == Some(outcome.row.time)
            && (mips == "N/A" ==> outcome.row.mips == None)
            && (mips != "N/A" ==> ParseDecimal(mips) == outcome.row.mips)
            && ParseDecimal(speed) == Some(outcome.row.speedup))
      && (!IsWellFormedNumber(speed) ==> outcome == Failed(InvalidNumber(speed)))
      && (IsWellFormedNumber(speed) && mips != "N/A" && !IsWellFormedNumber(mips) ==>
            outcome == Failed(InvalidNumber(mips)))
  {
    var line := LaidOut(name, gap1, time, gap2, mips, gap3, speed);
    LaidOutRowMatches(name, gap1, time, gap2, mips, gap3, speed);
    LaidOutNotPassedOver(name, gap1, time, gap2, mips, gap3, speed);
    StripUnpadded(name);
    MatchedLineOutcome(line);
  }
}
