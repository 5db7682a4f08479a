/**
 * Python's `float()` applied to the numeric tokens of a summary row. Every
 * token reaching it is made of digits and dots only, so exponents, signs,
 * underscores, "inf" and "nan" never arise; values are kept as exact decimals.
 */
module Decimal {
  import opened Wrappers
  import opened Text

  function Pow10(n: nat): (r: nat)
    ensures r >= 1
  {
    if n == 0 then 1 else 10 * Pow10(n - 1)
  }

  predicate AllDigits(s: string) {
    forall i :: 0 <= i < |s| ==> IsDigit(s[i])
  }

  /** The shape `[\d.]+`: one or more digits and dots in any order. */
  predicate IsDigitsAndDots(tok: string) {
    |tok| >= 1 && forall i :: 0 <= i < |tok| ==> IsDigit(tok[i]) || tok[i] == '.'
  }

  /** The shape `\d+\.?\d*`: digits, then optionally a dot and more digits. */
  predicate IsTimeToken(tok: string) {
    || (tok != [] && AllDigits(tok))
    || exists p :: 0 < p < |tok| && tok[p] == '.' && AllDigits(tok[..p]) && AllDigits(tok[p + 1..])
  }

  /** Number of dots in `tok`. */
  function Dots(tok: string): nat {
    multiset(tok)['.']
  }

  /** Value of a string of decimal digits, most significant first; the empty string is 0. */
  function DigitsValue(ds: string): (v: nat)
    requires AllDigits(ds)
    ensures v < Pow10(|ds|)
  {
    if ds == [] then 0
    else 10 * DigitsValue(ds[..|ds| - 1]) + (ds[|ds| - 1] as int - '0' as int)
  }

  /**
   * `float(tok)`: `tok` must be digits, at most one dot, and at least one digit
   * on some side of it; "." and "1.2.3" are rejected (Python raises ValueError).
   */
  function ParseDecimal(tok: string): (r: Option<real>)
    ensures r.Some? ==> IsDigitsAndDots(tok) && r.value >= 0.0
  {
    match FindFrom(tok, ".", 0)
    case None =>
      if tok != [] && AllDigits(tok) then Some(DigitsValue(tok) as real) else None
    case Some(p) =>
      var whole, frac := tok[..p], tok[p + 1..];
      if AllDigits(whole) && AllDigits(frac) && |whole| + |frac| >= 1 then
        DigitsAroundDot(tok, p);
        Some(DigitsValue(whole + frac) as real / Pow10(|frac|) as real)
      else None
  }

  /** Digits on both sides of a dot make a run of digits and dots. */
  lemma DigitsAroundDot(tok: string, p: nat)
    requires p < |tok| && tok[p] == '.' && AllDigits(tok[..p]) && AllDigits(tok[p + 1..])
    ensures IsDigitsAndDots(tok)
  {
    forall i | 0 <= i < |tok| ensures IsDigit(tok[i]) || tok[i] == '.' {
      if i < p { assert tok[i] == tok[..p][i]; }
      else if i > p { assert tok[i] == tok[p + 1..][i - p - 1]; }
    }
  }

  /** Digits written after other digits shift them left: the positional value of a concatenation. */
  lemma {:induction false} DigitsValueAppend(a: string, b: string)
    requires AllDigits(a) && AllDigits(b)
    ensures AllDigits(a + b)
    ensures DigitsValue(a + b) == DigitsValue(a) * Pow10(|b|) + DigitsValue(b)
    decreases |b|
  {
    assert AllDigits(a + b) by {
      forall i | 0 <= i < |a + b| ensures IsDigit((a + b)[i]) {
        if i < |a| { assert (a + b)[i] == a[i]; } else { assert (a + b)[i] == b[i - |a|]; }
      }
    }
    if b == [] {
      assert a + b == a;
    } else {
      var b' := b[..|b| - 1];
      assert AllDigits(b');
      DigitsValueAppend(a, b');
      assert (a + b)[..|a + b| - 1] == a + b';
      var d := b[|b| - 1] as int - '0' as int;
      assert DigitsValue(b) == 10 * DigitsValue(b') + d;
      assert DigitsValue(a + b) == 10 * DigitsValue(a + b') + d;
      ShiftByTen(DigitsValue(a), Pow10(|b'|), DigitsValue(b'), d);
    }
  }

  lemma ShiftByTen(va: int, p: int, vb: int, d: int)
    ensures 10 * (va * p + vb) + d == va * (10 * p) + (10 * vb + d)
  {
  }

  lemma NoDotNoDots(s: string)
    requires '.' !in s
    ensures Dots(s) == 0
  {
  }

  /** `float` of a plain digit string is its integer value. */
  lemma ParseInteger(ds: string)
    requires ds != [] && AllDigits(ds)
    ensures ParseDecimal(ds) == Some(DigitsValue(ds) as real)
  {
    if FindFrom(ds, ".", 0).Some? {
      assert false;
    }
  }

  /** The exact value of the numeral `whole.frac`: the whole part plus the fraction digits over a power of ten. */
  function DecimalValue(whole: string, frac: string): real
    requires AllDigits(whole) && AllDigits(frac)
  {
    DigitsValue(whole) as real + DigitsValue(frac) as real / Pow10(|frac|) as real
  }

  /** `float("W.F")` is the exact value of the numeral W.F. */
  lemma ParseFraction(whole: string, frac: string)
    requires AllDigits(whole) && AllDigits(frac) && |whole| + |frac| >= 1
    ensures ParseDecimal(whole + "." + frac) == Some(DecimalValue(whole, frac))
  {
    var tok := whole + "." + frac;
    FirstDotAt(whole, frac);
    assert tok[..|whole|] == whole && tok[|whole| + 1..] == frac;
    FractionValue(whole, frac);
  }

  /** Reading the digits of both parts as one integer and dividing by a power of ten gives the numeral's value. */
  lemma FractionValue(whole: string, frac: string)
    requires AllDigits(whole) && AllDigits(frac)
    ensures AllDigits(whole + frac)
    ensures DigitsValue(whole + frac) as real / Pow10(|frac|) as real == DecimalValue(whole, frac)
  {
    DigitsValueAppend(whole, frac);
    ScaleDown(DigitsValue(whole), Pow10(|frac|), DigitsValue(frac));
  }

  /** Digits, a dot and digits form a token of both number shapes, with exactly one dot. */
  lemma FractionToken(whole: string, frac: string)
    requires whole != [] && AllDigits(whole) && AllDigits(frac)
    ensures IsTimeToken(whole + "." + frac) && IsDigitsAndDots(whole + "." + frac)
    ensures Dots(whole + "." + frac) == 1
  {
    var tok := whole + "." + frac;
    assert tok[..|whole|] == whole && tok[|whole| + 1..] == frac && tok[|whole|] == '.';
    ParseFraction(whole, frac);
    assert '.' !in whole by {
      forall k | 0 <= k < |whole| ensures whole[k] != '.' {
        assert IsDigit(whole[k]);
      }
    }
    assert '.' !in frac by {
      forall k | 0 <= k < |frac| ensures frac[k] != '.' {
        assert IsDigit(frac[k]);
      }
    }
    NoDotNoDots(frac);
    CountAroundDot(whole, frac);
  }


  lemma FirstDotAt(whole: string, frac: string)
    requires AllDigits(whole)
    ensures FindFrom(whole + "." + frac, ".", 0) == Some(|whole|)
  {
    var tok := whole + "." + frac;
    assert tok[|whole|..|whole| + 1] == ".";
    assert OccursAt(tok, ".", |whole|);
    forall i | 0 <= i < |whole| ensures !OccursAt(tok, ".", i) {
      assert tok[i..i + 1] == [whole[i]];
    }
  }

  lemma ScaleDown(w: nat, p: nat, f: nat)
    requires p >= 1
    ensures (w * p + f) as real / p as real == w as real + f as real / p as real
  {
    assert (w * p + f) as real == w as real * p as real + f as real;
  }

  lemma NoDotFound(tok: string)
    requires FindFrom(tok, ".", 0).None?
    ensures '.' !in tok && Dots(tok) == 0
  {
    if '.' in tok {
      var i :| 0 <= i < |tok| && tok[i] == '.';
      assert tok[i..i + 1] == ".";
      assert OccursAt(tok, ".", i);
    }
  }

  lemma DotFound(tok: string, p: nat)
    requires FindFrom(tok, ".", 0) == Some(p)
    ensures p < |tok| && tok == tok[..p] + "." + tok[p + 1..]
    ensures '.' !in tok[..p]
    ensures Dots(tok) == 1 + Dots(tok[p + 1..])
  {
    assert tok[p..p + 1] == ".";
    SplitAroundDot(tok, p);
    NoDotBefore(tok, p);
    CountAroundDot(tok[..p], tok[p + 1..]);
  }

  lemma NoDotBefore(tok: string, p: nat)
    requires FindFrom(tok, ".", 0) == Some(p)
    ensures '.' !in tok[..p]
  {
    forall i | 0 <= i < p ensures tok[i] != '.' {
      assert !OccursAt(tok, ".", i);
      assert tok[i..i + 1] == [tok[i]];
    }
  }

  lemma CountAroundDot(whole: string, frac: string)
    requires '.' !in whole
    ensures Dots(whole + "." + frac) == 1 + Dots(frac)
  {
    assert multiset(whole + "." + frac) == multiset(whole) + multiset(".") + multiset(frac);
  }

  lemma SplitAroundDot(tok: string, p: nat)
    requires p < |tok| && tok[p..p + 1] == "."
    ensures tok == tok[..p] + "." + tok[p + 1..]
  {
    assert tok == tok[..p] + tok[p..p + 1] + tok[p + 1..];
  }

  /**
   * Which tokens `float` accepts, stated by counting: a nonempty run of digits
   * and dots is accepted exactly when it has at most one dot and is not all dots.
   */
  lemma ParseDecimalAccepts(tok: string)
    ensures ParseDecimal(tok).Some?
        <==> IsDigitsAndDots(tok) && Dots(tok) <= 1 && Dots(tok) < |tok|
  {
    match FindFrom(tok, ".", 0)
    case None =>
      NoDotFound(tok);
      if IsDigitsAndDots(tok) {
        assert AllDigits(tok);
      }
    case Some(p) =>
      DotFound(tok, p);
      var whole, frac := tok[..p], tok[p + 1..];
      if IsDigitsAndDots(tok) && Dots(tok) <= 1 && Dots(tok) < |tok| {
        assert '.' !in frac;
        forall i | 0 <= i < |frac| ensures IsDigit(frac[i]) {
          assert frac[i] == tok[p + 1 + i];
        }
        forall i | 0 <= i < |whole| ensures IsDigit(whole[i]) {
          assert whole[i] == tok[i];
        }
      }
      if ParseDecimal(tok).Some? {
        assert '.' !in frac;
        assert Dots(frac) == 0;
      }
  }

  /** Every token shaped `\d+\.?\d*` is accepted by `float`, so the time column never raises. */
  lemma TimeTokenParses(tok: string)
    requires IsTimeToken(tok)
    ensures ParseDecimal(tok).Some?
  {
    if tok != [] && AllDigits(tok) {
      ParseInteger(tok);
    } else {
      var p :| 0 < p < |tok| && tok[p] == '.' && AllDigits(tok[..p]) && AllDigits(tok[p + 1..]);
      assert tok == tok[..p] + "." + tok[p + 1..];
      ParseFraction(tok[..p], tok[p + 1..]);
    }
  }
}
