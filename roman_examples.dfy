/** Worked examples of `toRoman`, subtractive pairs included. */
module RomanExamples {
  import opened Tables
  import opened Roman

  lemma GreedyOf1994()
    ensures Greedy(1994, 0) == [0, 1, 5, 11]
  {
    SkipLarger(994, 0, 1);
    SkipLarger(94, 1, 5);
    SkipLarger(4, 5, 11);
    assert Greedy(4, 11) == [11];
    assert Greedy(94, 5) == [5, 11];
    assert Greedy(994, 1) == [1, 5, 11];
  }

  /** 1994 is M, CM, XC, IV. */
  lemma Roman1994()
    ensures RomanOf(1994) == "MCMXCIV"
  {
    GreedyOf1994();
    assert Spell([11]) == "IV";
    assert Spell([5, 11]) == "XC" + "IV";
    assert Spell([1, 5, 11]) == "CM" + "XCIV";
  }

  /** Zero has no symbols at all; four is the subtractive pair IV. */
  lemma RomanSmall()
    ensures RomanOf(0) == "" && RomanOf(4) == "IV"
  {
    SkipLarger(4, 0, 11);
    assert Greedy(4, 0) == [11];
  }

  /** Twelve is X followed by two I. */
  lemma Roman12()
    ensures RomanOf(12) == "XII"
  {
    SkipLarger(12, 0, 8);
    SkipLarger(2, 8, 12);
    assert Greedy(2, 12) == [12, 12];
    assert Greedy(12, 0) == [8, 12, 12];
    assert Spell([12]) == "I";
    assert Spell([12, 12]) == "I" + "I";
    assert Spell([8, 12, 12]) == "X" + "II";
  }
}
