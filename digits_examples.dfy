/** Worked examples of how single strokes render. */
module DigitExamples {
  import opened Text
  import opened DigitRendering

  /** E reverses the digits. */
  lemma Reversed()
    ensures Digits("12E") == "21"
  {
    assert DigitsOf("12E") == "12";
    assert NonDigitsOf("12E") == "E";
    assert Reverse("12") == "21";
    assert Without(Without("E", "E"), "U") == "";
    SuffixedPlain("21", "");
  }

  /** Z adds two zeros. */
  lemma Zeros()
    ensures Digits("5Z") == "500"
  {
    assert DigitsOf("5Z") == "5" && NonDigitsOf("5Z") == "Z";
    assert !Reverses("5Z") && Ordered("5Z") == DigitsOf("5Z");
    assert !Contains("Z", "DZ");
    SuffixedZeros("5", "Z");
  }

  /** D repeats the last digit. */
  lemma Doubled()
    ensures Digits("5D") == "55"
  {
    assert DigitsOf("5D") == "5" && NonDigitsOf("5D") == "D";
    assert !Reverses("5D") && Ordered("5D") == DigitsOf("5D");
    assert !Contains("D", "DZ");
    SuffixedDoubled("5", "D");
  }

  /** D and Z next to each other cancel. */
  lemma DoubledZerosCancel()
    ensures Digits("5DZ") == "5"
  {
    assert DigitsOf("5DZ") == "5" && NonDigitsOf("5DZ") == "DZ";
    assert !Reverses("5DZ") && Ordered("5DZ") == DigitsOf("5DZ");
    assert Contains("DZ", "DZ");
    SuffixedPlain("5", "DZ");
  }

  /** The star adds a decimal point. */
  lemma PointAdded()
    ensures Digits("5*") == "5."
  {
    assert DigitsOf("5*") == "5" && NonDigitsOf("5*") == "*";
    assert !Reverses("5*") && Ordered("5*") == DigitsOf("5*");
    SuffixedPlain("5", "*");
  }

  /** No decimal point when R is pressed too. */
  lemma PointSuppressed()
    ensures Digits("5*R") == "5"
  {
    assert DigitsOf("5*R") == "5" && NonDigitsOf("5*R") == "*R";
    assert !Reverses("5*R") && Ordered("5*R") == DigitsOf("5*R");
    SuffixedPlain("5", "*R");
  }
}
