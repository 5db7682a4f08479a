/**
 * Concrete summary rows of the shape the benchmark report prints, and what
 * the parser makes of each.
 */
module Samples {
  import opened Wrappers
  import opened Text
  import opened Decimal
  import opened RowPattern
  import opened Report

  /** Columns separated by runs of at least two whitespace characters, however wide. */
  predicate Separator(gap: string) {
    |gap| >= 2 && AllSpace(gap)
  }

  /** A token written as digits, a dot and digits reads as the value those digits denote. */
  lemma ReadsAs(whole: string, frac: string, tok: string, v: real)
    requires whole != [] && AllDigits(whole) && AllDigits(frac)
    requires tok == whole + "." + frac && DecimalValue(whole, frac) == v
    ensures ParseDecimal(tok) == Some(v) && IsTimeToken(tok) && IsDigitsAndDots(tok) && Dots(tok) == 1
  {
    ParseFraction(whole, frac);
    FractionToken(whole, frac);
  }

  lemma GpuTimeValue()
    ensures ParseDecimal("0.012") == Some(0.012) && IsTimeToken("0.012")
  {
    assert DecimalValue("0", "012") == 0.012 by {
      assert "0"[..0] == "" && "012"[..2] == "01" && "01"[..1] == "0";
      assert Pow10(3) == 1000;
    }
    ReadsAs("0", "012", "0.012", 0.012);
  }

  lemma GpuSpeedupValue()
    ensures ParseDecimal("4067.75") == Some(4067.75) && IsDigitsAndDots("4067.75") && Dots("4067.75") == 1
  {
    assert DecimalValue("4067", "75") == 4067.75 by {
      assert "4067"[..3] == "406" && "406"[..2] == "40" && "40"[..1] == "4" && "4"[..0] == "";
      assert "75"[..1] == "7" && "7"[..0] == "";
      assert Pow10(2) == 100;
    }
    ReadsAs("4067", "75", "4067.75", 4067.75);
  }

  lemma InterpreterTimeValue()
    ensures ParseDecimal("48.813") == Some(48.813) && IsTimeToken("48.813")
  {
    assert DecimalValue("48", "813") == 48.813 by {
      assert "48"[..1] == "4" && "4"[..0] == "";
      assert "813"[..2] == "81" && "81"[..1] == "8" && "8"[..0] == "";
      assert Pow10(3) == 1000;
    }
    ReadsAs("48", "813", "48.813", 48.813);
  }

  lemma InterpreterThroughputValue()
    ensures ParseDecimal("25.986") == Some(25.986) && IsDigitsAndDots("25.986") && Dots("25.986") == 1
  {
    assert DecimalValue("25", "986") == 25.986 by {
      assert "25"[..1] == "2" && "2"[..0] == "";
      assert "986"[..2] == "98" && "98"[..1] == "9" && "9"[..0] == "";
      assert Pow10(3) == 1000;
    }
    ReadsAs("25", "986", "25.986", 25.986);
  }

  lemma InterpreterSpeedupValue()
    ensures ParseDecimal("1.00") == Some(1.0) && IsDigitsAndDots("1.00") && Dots("1.00") == 1
  {
    assert DecimalValue("1", "00") == 1.0 by {
      assert "1"[..0] == "" && "00"[..1] == "0" && "0"[..0] == "";
      assert Pow10(2) == 100;
    }
    ReadsAs("1", "00", "1.00", 1.0);
  }

  lemma GpuName()
    ensures '\n' !in "GPU Kernel" && '-' !in "GPU Kernel" && SingleSpaced("GPU Kernel")
    ensures !IsSpace("GPU Kernel"[0]) && !IsSpace("GPU Kernel"[9])
  {
  }

  lemma GpuNameNoRule()
    ensures !Contains("GPU Kernel", "---")
  {
    NoDashNoRule("GPU Kernel");
  }

  lemma InterpreterWords()
    ensures SingleSpaced("Rust") && SingleSpaced("Interpreter")
  {
  }

  lemma QualifierWord()
    ensures SingleSpaced("(Sequential)")
  {
  }

  lemma InterpreterPrefixSingleSpaced()
    ensures SingleSpaced("Rust Interpreter")
  {
    InterpreterWords();
    SingleSpacedJoin("Rust", ' ', "Interpreter");
    assert "Rust" + [' '] + "Interpreter" == "Rust Interpreter";
  }

  lemma InterpreterNameSingleSpaced()
    ensures SingleSpaced("Rust Interpreter (Sequential)")
  {
    InterpreterPrefixSingleSpaced();
    QualifierWord();
    SingleSpacedJoin("Rust Interpreter", ' ', "(Sequential)");
    assert "Rust Interpreter" + [' '] + "(Sequential)" == "Rust Interpreter (Sequential)";
  }

  lemma InterpreterNameNoRule()
    ensures !Contains("Rust Interpreter (Sequential)", "---")
  {
    NoDashNoRule("Rust Interpreter (Sequential)");
  }

  lemma InterpreterName()
    ensures '\n' !in "Rust Interpreter (Sequential)" && '-' !in "Rust Interpreter (Sequential)"
    ensures SingleSpaced("Rust Interpreter (Sequential)")
    ensures !IsSpace("Rust Interpreter (Sequential)"[0]) && !IsSpace("Rust Interpreter (Sequential)"[28])
  {
    InterpreterNameSingleSpaced();
  }

  /** The GPU backend reports no throughput: "N/A" becomes an absent value. */
  lemma GpuRowParsed(gap1: string, gap2: string, gap3: string)
    requires Separator(gap1) && Separator(gap2) && Separator(gap3)
    ensures Classify(LaidOut("GPU Kernel", gap1, "0.012", gap2, "N/A", gap3, "4067.75"))
            == Parsed(Row("GPU Kernel", 0.012, None, 4067.75))
  {
    GpuTimeValue();
    GpuSpeedupValue();
    GpuName();
    GpuNameNoRule();
    LaidOutRowParses("GPU Kernel", gap1, "0.012", gap2, "N/A", gap3, "4067.75");
  }

  /** A name with a parenthesised qualifier and single spaces is kept whole. */
  lemma InterpreterRowParsed(gap1: string, gap2: string, gap3: string)
    requires Separator(gap1) && Separator(gap2) && Separator(gap3)
    ensures Classify(LaidOut("Rust Interpreter (Sequential)", gap1, "48.813", gap2, "25.986", gap3, "1.00"))
            == Parsed(Row("Rust Interpreter (Sequential)", 48.813, Some(25.986), 1.0))
  {
    InterpreterTimeValue();
    InterpreterThroughputValue();
    InterpreterSpeedupValue();
    InterpreterName();
    InterpreterNameNoRule();
    LaidOutRowParses("Rust Interpreter (Sequential)", gap1, "48.813", gap2, "25.986", gap3, "1.00");
  }

  /** A row with one malformed figure, taken apart. */
  lemma NativeName()
    ensures '\n' !in "Rust Native" && '-' !in "Rust Native" && SingleSpaced("Rust Native")
  {
  }

  lemma NativeNameNoRule()
    ensures !Contains("Rust Native", "---")
  {
    NoDashNoRule("Rust Native");
  }

  lemma TimeFigure()
    ensures IsTimeToken("1.5")
  {
    assert "1.5" == "1" + "." + "5";
    FractionToken("1", "5");
  }

  lemma SpeedupFigure()
    ensures IsDigitsAndDots("2.00") && Dots("2.00") == 1
  {
    assert "2.00" == "2" + "." + "00";
    FractionToken("2", "00");
  }

  lemma MalformedTokens()
    ensures IsDigitsAndDots("1.2.3") && Dots("1.2.3") == 2
    ensures IsDigitsAndDots(".") && Dots(".") == 1
  {
  }

  lemma NativeRowFacts()
    ensures '\n' !in "Rust Native" && '-' !in "Rust Native" && SingleSpaced("Rust Native")
    ensures IsTimeToken("1.5")
    ensures IsDigitsAndDots("1.2.3") && Dots("1.2.3") == 2
    ensures IsDigitsAndDots("2.00") && Dots("2.00") == 1
    ensures IsDigitsAndDots(".") && Dots(".") == 1
  {
    NativeName();
    TimeFigure();
    SpeedupFigure();
    MalformedTokens();
  }

  /** A name with single dashes holds no `---`. */
  lemma HyphenatedName()
    ensures '\n' !in "C-Native" && SingleSpaced("C-Native")
    ensures !IsSpace("C-Native"[0]) && !IsSpace("C-Native"[7])
  {
  }

  lemma HyphenatedNameNoRule()
    ensures !Contains("C-Native", "---")
  {
    assert !Contains("C-", "---");
    NoRuleAcross("C-", "Native");
    assert "C-" + "Native" == "C-Native";
  }

  lemma NativeTimeValue()
    ensures ParseDecimal("1.5") == Some(1.5) && IsTimeToken("1.5")
  {
    assert DecimalValue("1", "5") == 1.5 by {
      assert "1"[..0] == "" && "5"[..0] == "";
      assert Pow10(1) == 10;
    }
    ReadsAs("1", "5", "1.5", 1.5);
  }

  lemma NativeSpeedupValue()
    ensures ParseDecimal("2.00") == Some(2.0) && IsDigitsAndDots("2.00") && Dots("2.00") == 1
  {
    assert DecimalValue("2", "00") == 2.0 by {
      assert "2"[..0] == "" && "00"[..1] == "0" && "0"[..0] == "";
      assert Pow10(2) == 100;
    }
    ReadsAs("2", "00", "2.00", 2.0);
  }

  /** Single dashes in a backend name do not make its row a separator: the row is read as usual. */
  lemma HyphenatedNameParsed(gap1: string, gap2: string, gap3: string)
    requires Separator(gap1) && Separator(gap2) && Separator(gap3)
    ensures Classify(LaidOut("C-Native", gap1, "1.5", gap2, "N/A", gap3, "2.00"))
            == Parsed(Row("C-Native", 1.5, None, 2.0))
  {
    HyphenatedName();
    HyphenatedNameNoRule();
    NativeTimeValue();
    NativeSpeedupValue();
    LaidOutRowParses("C-Native", gap1, "1.5", gap2, "N/A", gap3, "2.00");
  }

  /** A throughput with two dots fits `[\d.]+` but `float` refuses it, and the parse stops there. */
  lemma TwoDotThroughputFails(gap1: string, gap2: string, gap3: string)
    requires Separator(gap1) && Separator(gap2) && Separator(gap3)
    ensures Classify(LaidOut("Rust Native", gap1, "1.5", gap2, "1.2.3", gap3, "2.00"))
            == Failed(InvalidNumber("1.2.3"))
  {
    NativeRowFacts();
    NativeNameNoRule();
    LaidOutRowParses("Rust Native", gap1, "1.5", gap2, "1.2.3", gap3, "2.00");
  }

  /** When both the throughput and the speedup are malformed, the speedup is the one reported. */
  lemma SpeedupReportedFirst(gap1: string, gap2: string, gap3: string)
    requires Separator(gap1) && Separator(gap2) && Separator(gap3)
    ensures Classify(LaidOut("Rust Native", gap1, "1.5", gap2, "1.2.3", gap3, "."))
            == Failed(InvalidNumber("."))
  {
    NativeRowFacts();
    NativeNameNoRule();
    LaidOutRowParses("Rust Native", gap1, "1.5", gap2, "1.2.3", gap3, ".");
  }

  /** Without the 'x' suffix the row pattern does not match and the line is passed over. */
  lemma MissingSuffixSkipped(gap1: string, gap2: string, gap3: string)
    requires Separator(gap1) && Separator(gap2) && Separator(gap3)
    ensures Classify("GPU Kernel" + gap1 + "0.012" + gap2 + "N/A" + gap3 + "4067.75") == Skipped
  {
    var line := "GPU Kernel" + gap1 + "0.012" + gap2 + "N/A" + gap3 + "4067.75";
    NotInSpace(gap1, 'x');
    NotInSpace(gap2, 'x');
    NotInSpace(gap3, 'x');
    assert 'x' !in line;
    MatchNeedsSeparatorAndSuffix(line);
  }

  lemma SingleSpacedPrefix()
    ensures SingleSpaced("GPU Kernel 0.012")
  {
    GpuName();
    assert SingleSpaced("0.012");
    SingleSpacedJoin("GPU Kernel", ' ', "0.012");
    assert "GPU Kernel" + [' '] + "0.012" == "GPU Kernel 0.012";
  }

  lemma SingleSpacedMiddle()
    ensures SingleSpaced("GPU Kernel 0.012 N/A")
  {
    SingleSpacedPrefix();
    assert SingleSpaced("N/A");
    SingleSpacedJoin("GPU Kernel 0.012", ' ', "N/A");
    assert "GPU Kernel 0.012" + [' '] + "N/A" == "GPU Kernel 0.012 N/A";
  }

  lemma SingleSpacedLine()
    ensures SingleSpaced("GPU Kernel 0.012 N/A 4067.75x")
  {
    SingleSpacedMiddle();
    assert SingleSpaced("4067.75x");
    SingleSpacedJoin("GPU Kernel 0.012 N/A", ' ', "4067.75x");
    assert "GPU Kernel 0.012 N/A" + [' '] + "4067.75x" == "GPU Kernel 0.012 N/A 4067.75x";
  }

  /** Single spaces do not separate fields, so the line is passed over. */
  lemma SingleSpacesSkipped()
    ensures Classify("GPU Kernel 0.012 N/A 4067.75x") == Skipped
  {
    SingleSpacedLine();
    MatchNeedsSeparatorAndSuffix("GPU Kernel 0.012 N/A 4067.75x");
  }

  /** A rule of dashes under the header is passed over. */
  lemma DashRuleSkipped()
    ensures Classify("------------------------------") == Skipped
  {
    assert OccursAt("------------------------------", "---", 0);
  }

  /** `float` refuses a lone dot and a token with two dots. */
  lemma MalformedNumbersRefused()
    ensures ParseDecimal(".") == None
    ensures ParseDecimal("1.2.3") == None
  {
    ParseDecimalAccepts(".");
    ParseDecimalAccepts("1.2.3");
    assert Dots(".") == 1;
    assert Dots("1.2.3") == 2;
  }
}
