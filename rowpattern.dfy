/**
 * The row matcher of `parse_benchmark_file`: `re.match` (anchored at the
 * start of the line only) of
 *
 *     (.+?)\s{2,}(\d+\.?\d*)\s{2,}([\d.]+|N/A)\s{2,}([\d.]+)x
 *
 * Once the end of the lazy name is fixed, every later part of a match is
 * forced: each `\s{2,}` must take the whole run of whitespace (the next token
 * starts with a non-space), and each greedy token must stop exactly where the
 * next part can start. So the backtracking engine returns the match whose
 * name is shortest, and there is exactly one match with that name.
 */
module RowPattern {
  import opened Wrappers
  import opened Text
  import opened Decimal

  /**
   * One match of the row pattern: group 1 (the name) is `line[..nameEnd]`,
   * group 2 `line[timeStart..timeEnd]`, group 3 `line[mipsStart..mipsEnd]`,
   * group 4 `line[speedStart..speedEnd]`, and the 'x' sits at `speedEnd`.
   */
  datatype RowMatch = RowMatch(
    nameEnd: nat,
    timeStart: nat, timeEnd: nat,
    mipsStart: nat, mipsEnd: nat,
    speedStart: nat, speedEnd: nat)

  /** The character classes the pattern scans runs of. */
  datatype CharClass = Space | Digit | DigitOrDot

  predicate InClass(c: char, cls: CharClass) {
    match cls
    case Space => IsSpace(c)
    case Digit => IsDigit(c)
    case DigitOrDot => IsDigit(c) || c == '.'
  }

  /** `line[i..j]` is `\s{2,}`: at least two whitespace characters. */
  predicate SpaceGap(line: string, i: nat, j: nat) {
    i + 2 <= j <= |line| && forall k :: i <= k < j ==> IsSpace(line[k])
  }

  /** `line[..n]` can be group 1: `.+?` reads at least one character and no newline. */
  predicate NamePart(line: string, n: nat) {
    1 <= n <= |line| && forall k :: 0 <= k < n ==> line[k] != '\n'
  }

  /** `line[i..j]` can be group 2, `\d+\.?\d*`. */
  predicate TimePart(line: string, i: nat, j: nat) {
    i <= j <= |line| && IsTimeToken(line[i..j])
  }

  /** `line[i..j]` can be group 3, `[\d.]+|N/A`. */
  predicate MipsPart(line: string, i: nat, j: nat) {
    i <= j <= |line| && (IsDigitsAndDots(line[i..j]) || line[i..j] == "N/A")
  }

  /** `line[i..j]` can be group 4, `[\d.]+`, and the literal 'x' follows it. */
  predicate SpeedPart(line: string, i: nat, j: nat) {
    i <= j < |line| && IsDigitsAndDots(line[i..j]) && line[j] == 'x'
  }

  /** `m` is a match of the row pattern at the start of `line`. */
  predicate IsRowMatch(line: string, m: RowMatch) {
    && NamePart(line, m.nameEnd)
    && SpaceGap(line, m.nameEnd, m.timeStart)
    && TimePart(line, m.timeStart, m.timeEnd)
    && SpaceGap(line, m.timeEnd, m.mipsStart)
    && MipsPart(line, m.mipsStart, m.mipsEnd)
    && SpaceGap(line, m.mipsEnd, m.speedStart)
    && SpeedPart(line, m.speedStart, m.speedEnd)
  }

  /** The end of the longest run of `cls` characters starting at `i`. */
  function Skip(line: string, i: nat, cls: CharClass): (j: nat)
    requires i <= |line|
    ensures i <= j <= |line|
    ensures forall k :: i <= k < j ==> InClass(line[k], cls)
    ensures j == |line| || !InClass(line[j], cls)
    decreases |line| - i
  {
    if i == |line| || !InClass(line[i], cls) then i else Skip(line, i + 1, cls)
  }

  /** A run of `cls` that ends before a character outside `cls` is exactly what `Skip` consumes. */
  lemma SkipStopsAt(line: string, i: nat, j: nat, cls: CharClass)
    requires i <= j <= |line|
    requires forall k :: i <= k < j ==> InClass(line[k], cls)
    requires j == |line| || !InClass(line[j], cls)
    ensures Skip(line, i, cls) == j
  {
  }

  /** `\s{2,}` read greedily from `i`: the whole whitespace run, if it has at least two characters. */
  function ScanGap(line: string, i: nat): (r: Option<nat>)
    requires i <= |line|
    ensures r.Some? ==> SpaceGap(line, i, r.value) && (r.value == |line| || !IsSpace(line[r.value]))
  {
    var j := Skip(line, i, Space);
    if j < i + 2 then None else Some(j)
  }

  /** Group 2, `\d+\.?\d*`, read greedily from `i`. */
  function ScanTime(line: string, i: nat): (r: Option<nat>)
    requires i <= |line|
    ensures r.Some? ==> TimePart(line, i, r.value)
  {
    var d := Skip(line, i, Digit);
    if d == i then None
    else
      var j := if d < |line| && line[d] == '.' then Skip(line, d + 1, Digit) else d;
      ScannedTimeToken(line, i, d, j);
      Some(j)
  }

  /** Group 3 read from `i`: the greedy `[\d.]+` alternative first, then the literal "N/A". */
  function ScanMips(line: string, i: nat): (r: Option<nat>)
    requires i <= |line|
    ensures r.Some? ==> MipsPart(line, i, r.value)
  {
    var j := Skip(line, i, DigitOrDot);
    if j > i then ScannedRun(line, i, j); Some(j)
    else if OccursAt(line, "N/A", i) then Some(i + 3)
    else None
  }

  /** Group 4 read greedily from `i`, followed by the literal 'x'. */
  function ScanSpeed(line: string, i: nat): (r: Option<nat>)
    requires i <= |line|
    ensures r.Some? ==> SpeedPart(line, i, r.value)
  {
    var j := Skip(line, i, DigitOrDot);
    if j == i || j == |line| || line[j] != 'x' then None
    else ScannedRun(line, i, j); Some(j)
  }

  /**
   * The rest of the pattern, once the name is `line[..n]`: each part is read
   * greedily, and the match fails where a part cannot be read.
   */
  function MatchWithNameEnd(line: string, n: nat): (r: Option<RowMatch>)
    requires NamePart(line, n)
    ensures r.Some? ==> IsRowMatch(line, r.value) && r.value.nameEnd == n
  {
    var ts := ScanGap(line, n);
    if ts.None? then None else
    var te := ScanTime(line, ts.value);
    if te.None? then None else
    var ms := ScanGap(line, te.value);
    if ms.None? then None else
    var me := ScanMips(line, ms.value);
    if me.None? then None else
    var ss := ScanGap(line, me.value);
    if ss.None? then None else
    var se := ScanSpeed(line, ss.value);
    if se.None? then None else
    Some(RowMatch(n, ts.value, te.value, ms.value, me.value, ss.value, se.value))
  }

  lemma ScannedRun(line: string, i: nat, j: nat)
    requires i < j <= |line|
    requires forall k :: i <= k < j ==> InClass(line[k], DigitOrDot)
    ensures IsDigitsAndDots(line[i..j])
  {
    forall k | 0 <= k < j - i ensures IsDigit(line[i..j][k]) || line[i..j][k] == '.' {
      assert line[i..j][k] == line[i + k];
    }
  }

  lemma ScannedTimeToken(line: string, ts: nat, d: nat, te: nat)
    requires ts < d <= |line|
    requires forall k :: ts <= k < d ==> IsDigit(line[k])
    requires te == (if d < |line| && line[d] == '.' then Skip(line, d + 1, Digit) else d)
    ensures TimePart(line, ts, te)
  {
    var tok := line[ts..te];
    if d < |line| && line[d] == '.' {
      var p := d - ts;
      assert tok[p] == '.';
      assert tok[..p] == line[ts..d];
      assert tok[p + 1..] == line[d + 1..te];
    } else {
      assert tok == line[ts..d];
    }
  }

  lemma ScanGapComplete(line: string, i: nat, j: nat)
    requires SpaceGap(line, i, j) && j < |line| && !IsSpace(line[j])
    ensures ScanGap(line, i) == Some(j)
  {
    SkipStopsAt(line, i, j, Space);
  }

  /** The digits of `line[i..j]` are a run of the `Digit` class. */
  lemma DigitRun(line: string, i: nat, j: nat)
    requires i <= j <= |line| && AllDigits(line[i..j])
    ensures forall k :: i <= k < j ==> InClass(line[k], Digit)
  {
    forall k | i <= k < j ensures InClass(line[k], Digit) {
      assert line[k] == line[i..j][k - i];
    }
  }

  lemma ScanTimeComplete(line: string, i: nat, j: nat)
    requires TimePart(line, i, j) && j < |line| && IsSpace(line[j])
    ensures ScanTime(line, i) == Some(j)
  {
    var tok := line[i..j];
    if tok != [] && AllDigits(tok) {
      DigitRun(line, i, j);
      SkipStopsAt(line, i, j, Digit);
    } else {
      var p :| 0 < p < |tok| && tok[p] == '.' && AllDigits(tok[..p]) && AllDigits(tok[p + 1..]);
      ScanDottedTime(line, i, i + p, j);
    }
  }

  /** A time token with its dot at `d` is read as the digits, the dot and the digits. */
  lemma ScanDottedTime(line: string, i: nat, d: nat, j: nat)
    requires i < d < j < |line| && line[d] == '.' && IsSpace(line[j])
    requires AllDigits(line[i..j][..d - i]) && AllDigits(line[i..j][d - i + 1..])
    ensures ScanTime(line, i) == Some(j)
  {
    assert line[i..j][..d - i] == line[i..d];
    assert line[i..j][d - i + 1..] == line[d + 1..j];
    DigitRun(line, i, d);
    SkipStopsAt(line, i, d, Digit);
    DigitRun(line, d + 1, j);
    SkipStopsAt(line, d + 1, j, Digit);
  }

  lemma ScanMipsComplete(line: string, i: nat, j: nat)
    requires MipsPart(line, i, j) && j < |line| && IsSpace(line[j])
    ensures ScanMips(line, i) == Some(j)
  {
    var tok := line[i..j];
    if tok == "N/A" {
      assert line[i] == tok[0];
      SkipStopsAt(line, i, i, DigitOrDot);
    } else {
      forall k | i <= k < j ensures InClass(line[k], DigitOrDot) {
        assert line[k] == tok[k - i];
      }
      SkipStopsAt(line, i, j, DigitOrDot);
    }
  }

  lemma ScanSpeedComplete(line: string, i: nat, j: nat)
    requires SpeedPart(line, i, j)
    ensures ScanSpeed(line, i) == Some(j)
  {
    var tok := line[i..j];
    forall k | i <= k < j ensures InClass(line[k], DigitOrDot) {
      assert line[k] == tok[k - i];
    }
    SkipStopsAt(line, i, j, DigitOrDot);
  }

  /** A match is fixed by the end of its name: the scan from that point yields exactly it. */
  lemma MatchDetermined(line: string, m: RowMatch)
    requires IsRowMatch(line, m)
    ensures MatchWithNameEnd(line, m.nameEnd) == Some(m)
  {
    assert line[m.timeStart] == line[m.timeStart..m.timeEnd][0];
    ScanGapComplete(line, m.nameEnd, m.timeStart);
    ScanTimeComplete(line, m.timeStart, m.timeEnd);
    assert line[m.mipsStart] == line[m.mipsStart..m.mipsEnd][0];
    ScanGapComplete(line, m.timeEnd, m.mipsStart);
    ScanMipsComplete(line, m.mipsStart, m.mipsEnd);
    assert line[m.speedStart] == line[m.speedStart..m.speedEnd][0];
    ScanGapComplete(line, m.mipsEnd, m.speedStart);
    ScanSpeedComplete(line, m.speedStart, m.speedEnd);
  }

  /** Two matches whose names end at the same place are the same match. */
  lemma {:induction false} MatchUnique(line: string, a: RowMatch, b: RowMatch)
    requires IsRowMatch(line, a) && IsRowMatch(line, b) && a.nameEnd == b.nameEnd
    ensures a == b
  {
    MatchDetermined(line, a);
    MatchDetermined(line, b);
  }

  /**
   * The lazy `(.+?)` tries name ends `n`, `n + 1`, ... in turn and stops at
   * the first that lets the rest match; a name cannot run past a newline.
   */
  function MatchFrom(line: string, n: nat): (r: Option<RowMatch>)
    requires 1 <= n
    requires forall k :: 0 <= k < n - 1 && k < |line| ==> line[k] != '\n'
    ensures r.Some? ==> IsRowMatch(line, r.value) && n <= r.value.nameEnd
    ensures r.Some? ==> forall m :: IsRowMatch(line, m) && n <= m.nameEnd ==> r.value.nameEnd <= m.nameEnd
    ensures r.None? ==> forall m :: IsRowMatch(line, m) ==> m.nameEnd < n
    decreases |line| + 1 - n
  {
    if |line| < n || line[n - 1] == '\n' then None
    else
      var here := MatchWithNameEnd(line, n);
      if here.Some? then here
      else
        NoMatchWithNameEnd(line, n);
        MatchFrom(line, n + 1)
  }

  lemma NoMatchWithNameEnd(line: string, n: nat)
    requires NamePart(line, n)
    requires MatchWithNameEnd(line, n).None?
    ensures forall m :: IsRowMatch(line, m) ==> m.nameEnd != n
  {
    forall m | IsRowMatch(line, m) ensures m.nameEnd != n {
      if m.nameEnd == n { MatchDetermined(line, m); }
    }
  }

  /** `re.match` of the row pattern against `line`: the match with the shortest name, if any. */
  function MatchRow(line: string): (r: Option<RowMatch>)
    ensures r.Some? ==> IsRowMatch(line, r.value)
    ensures r.Some? ==> forall m :: IsRowMatch(line, m) ==> r.value.nameEnd <= m.nameEnd
    ensures r.None? <==> forall m :: !IsRowMatch(line, m)
  {
    MatchFrom(line, 1)
  }

  /** The match returned is the one whose name is shortest; no other match is returned. */
  lemma MatchRowIsShortestName(line: string, m: RowMatch)
    requires IsRowMatch(line, m)
    requires forall m' :: IsRowMatch(line, m') ==> m.nameEnd <= m'.nameEnd
    ensures MatchRow(line) == Some(m)
  {
    MatchUnique(line, MatchRow(line).value, m);
  }

  /** `match.group(1)`, `match.group(2)`, `match.group(3)`, `match.group(4)`. */
  function NameGroup(line: string, m: RowMatch): string
    requires IsRowMatch(line, m)
  {
    line[..m.nameEnd]
  }

  function TimeGroup(line: string, m: RowMatch): string
    requires IsRowMatch(line, m)
  {
    line[m.timeStart..m.timeEnd]
  }

  function MipsGroup(line: string, m: RowMatch): string
    requires IsRowMatch(line, m)
  {
    line[m.mipsStart..m.mipsEnd]
  }

  function SpeedGroup(line: string, m: RowMatch): string
    requires IsRowMatch(line, m)
  {
    line[m.speedStart..m.speedEnd]
  }

  /** No two whitespace characters in a row: `s` holds no `\s{2,}`. */
  predicate SingleSpaced(s: string) {
    forall k :: 0 <= k < |s| - 1 ==> !(IsSpace(s[k]) && IsSpace(s[k + 1]))
  }

  /** Two single-spaced words joined by one character, with no whitespace at the seam, stay single-spaced. */
  lemma SingleSpacedJoin(a: string, sep: char, b: string)
    requires SingleSpaced(a) && SingleSpaced(b) && a != [] && b != []
    requires !IsSpace(a[|a| - 1]) && !IsSpace(b[0])
    ensures SingleSpaced(a + [sep] + b)
  {
    var s := a + [sep] + b;
    forall k | 0 <= k < |s| - 1 ensures !(IsSpace(s[k]) && IsSpace(s[k + 1])) {
      if k < |a| - 1 {
        assert s[k] == a[k] && s[k + 1] == a[k + 1];
      } else if k == |a| - 1 {
        assert s[k] == a[k];
      } else if k == |a| {
        assert s[k + 1] == b[0];
      } else {
        assert s[k] == b[k - |a| - 1] && s[k + 1] == b[k - |a|];
      }
    }
  }

  /** A row as the benchmark prints it: four fields, three separators and the 'x' suffix. */
  function LaidOut(name: string, gap1: string, time: string, gap2: string, mips: string, gap3: string, speed: string): string {
    name + gap1 + time + gap2 + mips + gap3 + speed + "x"
  }

  /** Where the fields of a laid-out row start and end. */
  function LaidOutMatch(name: string, gap1: string, time: string, gap2: string, mips: string, gap3: string, speed: string): RowMatch {
    var a := |name|;
    var b := a + |gap1|;
    var c := b + |time|;
    var d := c + |gap2|;
    var e := d + |mips|;
    var f := e + |gap3|;
    RowMatch(a, b, c, d, e, f, f + |speed|)
  }

  /** The pieces of a laid-out row sit at the offsets `LaidOutMatch` gives. */
  lemma LaidOutPieces(name: string, gap1: string, time: string, gap2: string, mips: string, gap3: string, speed: string)
    ensures var line := LaidOut(name, gap1, time, gap2, mips, gap3, speed);
      var m := LaidOutMatch(name, gap1, time, gap2, mips, gap3, speed);
      && |line| == m.speedEnd + 1 && line[m.speedEnd] == 'x'
      && line[..m.nameEnd] == name && line[m.nameEnd..m.timeStart] == gap1
      && line[m.timeStart..m.timeEnd] == time && line[m.timeEnd..m.mipsStart] == gap2
      && line[m.mipsStart..m.mipsEnd] == mips && line[m.mipsEnd..m.speedStart] == gap3
      && line[m.speedStart..m.speedEnd] == speed
  {
    var line := LaidOut(name, gap1, time, gap2, mips, gap3, speed);
    var m := LaidOutMatch(name, gap1, time, gap2, mips, gap3, speed);
    assert line == name + gap1 + time + gap2 + mips + gap3 + speed + "x";
    assert line[..m.nameEnd] == name;
    assert line[m.nameEnd..m.timeStart] == gap1;
    assert line[m.timeStart..m.timeEnd] == time;
    assert line[m.timeEnd..m.mipsStart] == gap2;
    assert line[m.mipsStart..m.mipsEnd] == mips;
    assert line[m.mipsEnd..m.speedStart] == gap3;
    assert line[m.speedStart..m.speedEnd] == speed;
  }

  /** A slice of all-whitespace, at least two long, is a separator. */
  lemma GapAt(line: string, i: nat, j: nat, gap: string)
    requires i <= j <= |line| && line[i..j] == gap && |gap| >= 2 && AllSpace(gap)
    ensures SpaceGap(line, i, j)
  {
    forall k | i <= k < j ensures IsSpace(line[k]) {
      assert line[k] == gap[k - i];
    }
  }

  /** The offsets of a laid-out row form a match of the pattern. */
  lemma LaidOutIsRowMatch(name: string, gap1: string, time: string, gap2: string, mips: string, gap3: string, speed: string)
    requires name != [] && '\n' !in name
    requires |gap1| >= 2 && |gap2| >= 2 && |gap3| >= 2 && AllSpace(gap1) && AllSpace(gap2) && AllSpace(gap3)
    requires IsTimeToken(time) && (IsDigitsAndDots(mips) || mips == "N/A") && IsDigitsAndDots(speed)
    ensures IsRowMatch(LaidOut(name, gap1, time, gap2, mips, gap3, speed), LaidOutMatch(name, gap1, time, gap2, mips, gap3, speed))
  {
    var line := LaidOut(name, gap1, time, gap2, mips, gap3, speed);
    var m := LaidOutMatch(name, gap1, time, gap2, mips, gap3, speed);
    LaidOutPieces(name, gap1, time, gap2, mips, gap3, speed);
    GapAt(line, m.nameEnd, m.timeStart, gap1);
    GapAt(line, m.timeEnd, m.mipsStart, gap2);
    GapAt(line, m.mipsEnd, m.speedStart, gap3);
    forall k | 0 <= k < m.nameEnd ensures line[k] != '\n' {
      assert line[k] == name[k];
    }
  }

  /** A match whose name holds no two whitespace characters in a row is the one `re.match` returns. */
  lemma NoEarlierSeparator(line: string, m: RowMatch)
    requires IsRowMatch(line, m)
    requires forall k :: 0 <= k < m.nameEnd ==> !(IsSpace(line[k]) && IsSpace(line[k + 1]))
    ensures MatchRow(line) == Some(m)
  {
    forall m' | IsRowMatch(line, m') ensures m.nameEnd <= m'.nameEnd {
      assert IsSpace(line[m'.nameEnd]) && IsSpace(line[m'.nameEnd + 1]);
    }
    MatchRowIsShortestName(line, m);
  }

  /** In a laid-out row, no two whitespace characters in a row start inside the name. */
  lemma LaidOutNameSingleSpaced(name: string, gap1: string, time: string, gap2: string, mips: string, gap3: string, speed: string)
    requires name != [] && SingleSpaced(name) && !IsSpace(name[|name| - 1])
    ensures var line := LaidOut(name, gap1, time, gap2, mips, gap3, speed);
      forall k :: 0 <= k < |name| ==> !(IsSpace(line[k]) && IsSpace(line[k + 1]))
  {
    var line := LaidOut(name, gap1, time, gap2, mips, gap3, speed);
    LaidOutPieces(name, gap1, time, gap2, mips, gap3, speed);
    forall k | 0 <= k < |name| ensures !(IsSpace(line[k]) && IsSpace(line[k + 1])) {
      assert line[k] == name[k];
      if k + 1 < |name| {
        assert line[k + 1] == name[k + 1];
      }
    }
  }

  /**
   * A laid-out row matches, and the groups are the fields it was laid out
   * from, as long as the name cannot itself hold a separator: no newline,
   * no two whitespace characters in a row, and no trailing whitespace.
   */
  lemma LaidOutRowMatches(name: string, gap1: string, time: string, gap2: string, mips: string, gap3: string, speed: string)
    requires name != [] && '\n' !in name && SingleSpaced(name) && !IsSpace(name[|name| - 1])
    requires |gap1| >= 2 && |gap2| >= 2 && |gap3| >= 2 && AllSpace(gap1) && AllSpace(gap2) && AllSpace(gap3)
    requires IsTimeToken(time) && (IsDigitsAndDots(mips) || mips == "N/A") && IsDigitsAndDots(speed)
    ensures var line := LaidOut(name, gap1, time, gap2, mips, gap3, speed);
      && MatchRow(line).Some?
      && NameGroup(line, MatchRow(line).value) == name
      && TimeGroup(line, MatchRow(line).value) == time
      && MipsGroup(line, MatchRow(line).value) == mips
      && SpeedGroup(line, MatchRow(line).value) == speed
  {
    var line := LaidOut(name, gap1, time, gap2, mips, gap3, speed);
    var m := LaidOutMatch(name, gap1, time, gap2, mips, gap3, speed);
    LaidOutPieces(name, gap1, time, gap2, mips, gap3, speed);
    LaidOutIsRowMatch(name, gap1, time, gap2, mips, gap3, speed);
    LaidOutNameSingleSpaced(name, gap1, time, gap2, mips, gap3, speed);
    NoEarlierSeparator(line, m);
  }
}
