/**
 * The section locator of `parse_benchmark_file`: a DOTALL `re.search` for
 *
 *     RESUMO DO BENCHMARK.*?--- Bitonic Sort.*?\n(.*?)\n={50,}
 *
 * A match is fixed by four positions: where the start marker begins, where
 * the sub-header begins, the newline that ends the sub-header's line, and the
 * newline that opens the closing rule. The search returns the first match in
 * backtracking order: leftmost start, then for each lazy `.*?` the shortest
 * extension, i.e. the lexicographically least tuple of the four positions.
 */
module Section {
  import opened Wrappers
  import opened Text

  const StartMarker: string := "RESUMO DO BENCHMARK"
  const SubHeader: string := "--- Bitonic Sort"
  /** Minimum number of '=' in the closing rule. */
  const RuleWidth: nat := 50
  /** A newline followed by the first `RuleWidth` '=' of the closing rule; `={50,}` needs no more than these. */
  const Rule: string := "\n" + "=================================================="

  /** The four positions that fix one match of the section pattern. */
  datatype Span = Span(start: nat, header: nat, lineEnd: nat, close: nat)

  /** `m` is a match of the section pattern in `content` (the DOTALL `.*?` gaps accept any text). */
  predicate IsMatch(content: string, m: Span) {
    && OccursAt(content, StartMarker, m.start)
    && m.start + |StartMarker| <= m.header
    && OccursAt(content, SubHeader, m.header)
    && m.header + |SubHeader| <= m.lineEnd
    && OccursAt(content, "\n", m.lineEnd)
    && m.lineEnd + 1 <= m.close
    && OccursAt(content, Rule, m.close)
  }

  /** `a` comes no later than `b` in the order a backtracking search tries matches. */
  predicate TriedNoLater(a: Span, b: Span) {
    || a.start < b.start
    || (a.start == b.start && a.header < b.header)
    || (a.start == b.start && a.header == b.header && a.lineEnd < b.lineEnd)
    || (a.start == b.start && a.header == b.header && a.lineEnd == b.lineEnd && a.close <= b.close)
  }

  /**
   * The match `re.search` returns: none when the pattern does not occur,
   * otherwise the match tried first.
   */
  function Locate(content: string): (r: Option<Span>)
    ensures r.Some? ==> IsMatch(content, r.value)
    ensures r.Some? ==> forall m :: IsMatch(content, m) ==> TriedNoLater(r.value, m)
    ensures r.None? ==> forall m :: !IsMatch(content, m)
  {
    var s := FindFrom(content, StartMarker, 0);
    if s.None? then None
    else
      var h := FindFrom(content, SubHeader, s.value + |StartMarker|);
      if h.None? then None
      else
        var q := FindFrom(content, "\n", h.value + |SubHeader|);
        if q.None? then None
        else
          var e := FindFrom(content, Rule, q.value + 1);
          if e.None? then None
          else Some(Span(s.value, h.value, q.value, e.value))
  }

  /** `summary_section.group(1)`: the text between the sub-header's line and the closing rule. */
  function SummarySection(content: string): (r: Option<string>)
    ensures r.Some? <==> exists m :: IsMatch(content, m)
    ensures r.Some? ==> r.value == content[Locate(content).value.lineEnd + 1..Locate(content).value.close]
  {
    match Locate(content)
    case None => None
    case Some(m) => Some(content[m.lineEnd + 1..m.close])
  }
}
