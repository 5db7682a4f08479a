/**
 * The string primitives the parser relies on: Python's notion of whitespace
 * (shared by `str.strip()` and the `\s` class of a str pattern), substring
 * search, `str.strip()` and `str.split('\n')`.
 */
module Text {
  import opened Wrappers

  /** Characters for which Python's `str.isspace()` holds; `\s` in a str pattern matches exactly these. */
  predicate IsSpace(c: char) {
    || c == ' '
    || ('\t' <= c <= '\r')
    || ('\U{1c}' <= c <= '\U{1f}')
    || c == '\U{85}' || c == '\U{a0}' || c == '\U{1680}'
    || ('\U{2000}' <= c <= '\U{200a}')
    || c == '\U{2028}' || c == '\U{2029}' || c == '\U{202f}' || c == '\U{205f}' || c == '\U{3000}'
  }

  /** The ASCII decimal digits, the characters `\d` is taken to match in this model. */
  predicate IsDigit(c: char) {
    '0' <= c <= '9'
  }

  predicate AllSpace(s: string) {
    forall i :: 0 <= i < |s| ==> IsSpace(s[i])
  }

  /** `pat` occurs in `s` starting at index `i`. */
  predicate OccursAt(s: string, pat: string, i: nat) {
    i + |pat| <= |s| && s[i..i + |pat|] == pat
  }

  /** The first index at or after `from` where `pat` occurs (Python's `s.find(pat, from)`). */
  function FindFrom(s: string, pat: string, from: nat): (r: Option<nat>)
    ensures r.Some? ==> from <= r.value && OccursAt(s, pat, r.value)
    ensures r.Some? ==> forall i :: from <= i < r.value ==> !OccursAt(s, pat, i)
    ensures r.None? ==> forall i :: from <= i ==> !OccursAt(s, pat, i)
    decreases |s| - from
  {
    if |s| < from + |pat| then None
    else if OccursAt(s, pat, from) then Some(from)
    else FindFrom(s, pat, from + 1)
  }

  /** Python's `pat in s`. */
  function Contains(s: string, pat: string): (b: bool)
    ensures b <==> exists i :: OccursAt(s, pat, i)
  {
    FindFrom(s, pat, 0).Some?
  }

  /** Number of whitespace characters at the front of `s`. */
  function LeadingSpace(s: string): (n: nat)
    ensures n <= |s|
    ensures forall i :: 0 <= i < n ==> IsSpace(s[i])
    ensures n == |s| || !IsSpace(s[n])
  {
    if s == [] || !IsSpace(s[0]) then 0 else 1 + LeadingSpace(s[1..])
  }

  /** Number of whitespace characters at the back of `s`. */
  function TrailingSpace(s: string): (n: nat)
    ensures n <= |s|
    ensures forall i :: |s| - n <= i < |s| ==> IsSpace(s[i])
    ensures n == |s| || !IsSpace(s[|s| - 1 - n])
  {
    if s == [] || !IsSpace(s[|s| - 1]) then 0 else 1 + TrailingSpace(s[..|s| - 1])
  }

  /**
   * Python's `s.strip()`: the slice of `s` left after removing whitespace at
   * both ends; it is empty exactly when `s` is all whitespace.
   */
  function Strip(s: string): (r: string)
    ensures AllSpace(s) <==> r == []
    ensures r == [] || (!IsSpace(r[0]) && !IsSpace(r[|r| - 1]))
    ensures LeadingSpace(s) + |r| <= |s| && r == s[LeadingSpace(s)..LeadingSpace(s) + |r|]
    ensures AllSpace(s[..LeadingSpace(s)]) && AllSpace(s[LeadingSpace(s) + |r|..])
  {
    var lead := LeadingSpace(s);
    if lead == |s| then
      assert s[..lead] == s;
      []
    else
      StripMiddle(s);
      s[lead..|s| - TrailingSpace(s)]
  }

  /** When `s` has a non-space character, its leading and trailing whitespace do not overlap. */
  lemma StripMiddle(s: string)
    requires LeadingSpace(s) < |s|
    ensures LeadingSpace(s) + TrailingSpace(s) < |s|
    ensures !AllSpace(s)
    ensures AllSpace(s[..LeadingSpace(s)]) && AllSpace(s[|s| - TrailingSpace(s)..])
  {
    var lead, trail := LeadingSpace(s), TrailingSpace(s);
    assert !IsSpace(s[lead]);
    forall i | 0 <= i < lead ensures IsSpace(s[..lead][i]) {
      assert s[..lead][i] == s[i];
    }
    var tail := s[|s| - trail..];
    forall i | 0 <= i < trail ensures IsSpace(tail[i]) {
      assert tail[i] == s[|s| - trail + i];
    }
  }

  /** The pieces joined back with `sep` between them (Python's `sep.join(pieces)`). */
  function Join(pieces: seq<string>, sep: char): string {
    if pieces == [] then []
    else if |pieces| == 1 then pieces[0]
    else pieces[0] + [sep] + Join(pieces[1..], sep)
  }

  /**
   * Python's `s.split(sep)` for a one-character separator: at least one piece,
   * no piece holds the separator, and joining the pieces gives `s` back.
   */
  function Split(s: string, sep: char): (r: seq<string>)
    ensures |r| >= 1
    ensures forall k :: 0 <= k < |r| ==> sep !in r[k]
    ensures Join(r, sep) == s
    decreases |s|
  {
    match FindFrom(s, [sep], 0)
    case None =>
      assert forall i :: 0 <= i < |s| ==> !OccursAt(s, [sep], i) && s[i..i + 1] == [s[i]];
      [s]
    case Some(i) =>
      assert forall j :: 0 <= j < i ==> !OccursAt(s, [sep], j) && s[j..j + 1] == [s[j]];
      var rest := Split(s[i + 1..], sep);
      assert s == s[..i] + [sep] + s[i + 1..];
      [s[..i]] + rest
  }

  /** A run of whitespace holds no character that is not whitespace. */
  lemma NotInSpace(s: string, c: char)
    requires AllSpace(s) && !IsSpace(c)
    ensures c !in s
  {
    forall k | 0 <= k < |s| ensures s[k] != c {
      assert IsSpace(s[k]);
    }
  }

  /** Text without a '-' holds no `---`. */
  lemma NoDashNoRule(s: string)
    requires '-' !in s
    ensures !Contains(s, "---")
  {
    forall i: nat | i + 3 <= |s| ensures !OccursAt(s, "---", i) {
      assert s[i..i + 3][0] == s[i];
    }
  }

  /** Appending dash-free text cannot create a `---`: any occurrence would end inside the prefix. */
  lemma NoRuleAcross(a: string, b: string)
    requires !Contains(a, "---") && '-' !in b
    ensures !Contains(a + b, "---")
  {
    var s := a + b;
    forall i: nat ensures !OccursAt(s, "---", i) {
      if i + 3 <= |s| {
        if i + 3 <= |a| {
          assert s[i..i + 3] == a[i..i + 3];
          assert !OccursAt(a, "---", i);
        } else {
          assert s[i..i + 3][2] == s[i + 2] == b[i + 2 - |a|];
        }
      }
    }
  }

  /** Stripping a string that neither starts nor ends with whitespace leaves it as it is. */
  lemma StripUnpadded(s: string)
    requires s != [] && !IsSpace(s[0]) && !IsSpace(s[|s| - 1])
    ensures Strip(s) == s
  {
    assert LeadingSpace(s) == 0;
    assert TrailingSpace(s) == 0;
    assert s[0..|s|] == s;
  }

  /** Splitting undoes joining: separator-free pieces come back unchanged. */
  lemma {:induction false} SplitJoin(pieces: seq<string>, sep: char)
    requires |pieces| >= 1
    requires forall k :: 0 <= k < |pieces| ==> sep !in pieces[k]
    ensures Split(Join(pieces, sep), sep) == pieces
    decreases |pieces|
  {
    var s := Join(pieces, sep);
    var p := pieces[0];
    if |pieces| == 1 {
    } else {
      var tail := Join(pieces[1..], sep);
      assert s == p + [sep] + tail;
      assert OccursAt(s, [sep], |p|);
      forall j | 0 <= j < |p| ensures !OccursAt(s, [sep], j) {
        assert s[j] == p[j];
      }
      assert FindFrom(s, [sep], 0) == Some(|p|);
      assert s[..|p|] == p;
      assert s[|p| + 1..] == tail;
      SplitJoin(pieces[1..], sep);
      assert pieces == [p] + pieces[1..];
    }
  }
}
