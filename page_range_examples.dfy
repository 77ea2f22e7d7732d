/**
 * Concrete page-range texts resolved for small documents, each derived
 * from the general lemmas.
 */
module PageRangeExamples {
  import opened Wrappers
  import opened JsBuiltins
  import opened PageRange
  import opened PageRangeProperties

  /** A page number past the end is lowered to the last page. */
  lemma NinetyNine()
    ensures ParseRange("99", 5) == [4]
  {
    assert NatToString(99) == "99";
    NatToStringIsNumberText(99);
    SingleToken("99", 5, Finite(99));
  }

  /** A range whose end is below its start selects nothing. */
  lemma Reversed()
    ensures ParseRange("9-2", 5) == []
  {
    assert NatToString(9) == "9" && NatToString(2) == "2";
    NatToStringIsNumberText(9);
    NatToStringIsNumberText(2);
    assert "9-2" == "9" + "-" + "2";
    ClampedRange("9", "2", 9, 2, 5);
  }

  /** "-3": the empty start is Number("") = 0, raised to 1, so it means 1-3. */
  lemma OpenStart()
    ensures ParseRange("-3", 5) == [0, 1, 2]
  {
    assert NatToString(3) == "3";
    NatToStringIsNumberText(3);
    ToNumberBlank("");
    assert "-3" == "" + "-" + "3";
    ClampedRange("", "3", 0, 3, 5);
    assert Indices(0, 3) == [0, 1, 2];
  }

  /** "3-": the empty end is 0, below the start, so nothing is selected. */
  lemma OpenEnd()
    ensures ParseRange("3-", 5) == []
  {
    assert NatToString(3) == "3";
    NatToStringIsNumberText(3);
    ToNumberBlank("");
    assert "3-" == "3" + "-" + "";
    ClampedRange("3", "", 3, 0, 5);
  }

  /** A range starting past the end is lowered to end at the last page, below its start. */
  lemma PastTheEnd()
    ensures ParseRange("6-10", 5) == []
  {
    assert NatToString(6) == "6" && NatToString(10) == "10";
    NatToStringIsNumberText(6);
    NatToStringIsNumberText(10);
    assert "6-10" == "6" + "-" + "10";
    ClampedRange("6", "10", 6, 10, 5);
  }

  /** A page named twice is selected twice. */
  lemma RepeatedPage()
    ensures ParseRange("2,2", 5) == [1, 1]
  {
    assert ParseRange("2", 5) == [1] by {
      assert NatToString(2) == "2";
      NatToStringIsNumberText(2);
      SingleToken("2", 5, Finite(2));
    }
    assert "2,2" == "2" + "," + "2";
    TokensConcat("2", "2", 5);
  }

  /** A token that is not a number is NaN and filtered out. */
  lemma NotANumber()
    ensures ParseRange("x", 5) == []
  {
    ToNumberOfLiteral("x");
    SingleToken("x", 5, NaN);
  }

  /** `Number("2.0")` is 2. */
  lemma TwoPointZero()
    ensures ToNumber("2.0") == Finite(2)
  {
    ToNumberOfDecimal("2.0");
    ZeroFractionValue("2");
    assert "2" + ".0" == "2.0";
  }

  /** A decimal literal with an integer value names that page: "2.0" is page 2. */
  lemma DecimalPage()
    ensures ParseRange("2.0", 5) == [1]
  {
    TwoPointZero();
    SingleToken("2.0", 5, Finite(2));
  }

  /** `Number("1e1")` is 10. */
  lemma OneEOne()
    ensures ToNumber("1e1") == Finite(10)
  {
    ToNumberOfExponent(1, 1);
    assert NatToString(1) == "1";
    assert "1" + "e" + "1" == "1e1";
    assert Pow10(1) == 10;
  }

  /** An exponent literal names a page too: "1e1" is page 10. */
  lemma ExponentPage()
    ensures ParseRange("1e1", 20) == [9]
  {
    OneEOne();
    SingleToken("1e1", 20, Finite(10));
  }

  /** `Number("2.5")` is not an integer, which the model reads as NaN. */
  lemma TwoPointFive()
    ensures ToNumber("2.5").NaN?
  {
    ToNumberOfDecimal("2.5");
    TwoPointFiveParts();
    TwoPointFiveScaled();
  }

  lemma TwoPointFiveParts()
    ensures DecimalValue("2.5") == ScaledValue("2", "5", Some(0))
  {
    WithoutExponent("2.5");
    assert "2" + "." + "5" == "2.5";
    WithFraction("2", "5", Some(0));
  }

  lemma TwoPointFiveScaled()
    ensures ScaledValue("2", "5", Some(0)).NaN?
  {
    assert "2" + "5" == "25";
    assert ParseDigits("25", 10) == Some(25);
    assert Shift(25, -1) == NaN;
  }

  /**
   * A fractional range end makes the whole range select nothing in the
   * model: "1-2.5" on 5 pages gives [], where JavaScript truncates the
   * run's length and gives [0, 1].
   */
  lemma FractionalEnd()
    ensures ParseRange("1-2.5", 5) == []
  {
    FractionalEndIsNaN();
    RangeTokenNaN("1-2.5", 5);
  }

  lemma FractionalEndIsNaN()
    ensures '-' in "1-2.5" && RangeEnds("1-2.5").1.NaN?
  {
    TwoPointFive();
    RangeEndsOfText("1", "2.5");
    SplitNoSeparator("2.5", '-');
    assert "1" + "-" + "2.5" == "1-2.5";
  }
}
