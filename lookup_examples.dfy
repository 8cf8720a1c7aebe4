/** Worked lookups, and the suffix helpers on sample inputs. */
module LookupExamples {
  import opened Text
  import opened DigitRendering
  import opened LookupFacts
  import opened NumberLookup
  import opened Roman
  import opened RomanExamples
  import opened EnglishWords
  import opened WordsExamples
  import opened DigitExamples

  lemma RenderDigits12()
    ensures Digits("12") == "12" && Permitted("12")
  {
    assert DigitsOf("12") == "12";
    DigitsUnmodified("12");
  }

  lemma PlainDigits()
    ensures Step(Start, "12") == Success(State("12", false))
  {
    RenderDigits12();
    DigitStroke(Start, "12");
    assert Rendered(Start, "12") == "12";
  }

  lemma Render3KR()
    ensures Digits("3KR") == "3" && Permitted("3KR")
  {
    assert DigitsOf("3KR") == "3";
    DigitsUnmodified("3KR");
  }

  lemma Control3KR()
    ensures LookupControl("3KR") == "KR"
  {
    ControlKR("3KR");
  }

  /** The control keys of a stroke of one digit and K and R. */
  lemma ControlKR(k: string)
    requires |k| == 3 && IsDigit(k[0]) && k[1..] == "KR"
    ensures LookupControl(k) == "KR"
  {
    assert "KR"[1..] == "R";
    assert "R"[1..] == [];
    assert Without("R", "0123456789#-EU") == "R";
    assert Without("KR", "0123456789#-EU") == "KR";
  }

  lemma PercentBranch()
    ensures BranchOf("KR") == Percent("KR")
    ensures RemoveAll("KR", "KR") == ""
  {
    ContainsSameLength("KR", "RB");
    ContainsSameLength("KR", "WR");
    ContainsSameLength("KR", "KR");
  }

  lemma PercentWrap123()
    ensures WrapRun("123", "", "%") == "123%"
  {
    WrapWhole("123", "", "%");
    assert "" + "123" + "%" == "123%";
  }

  /** A text of digits alone is wrapped as a whole. */
  lemma WrapWhole(r: string, pre: string, post: string)
    requires r != [] && AllDigits(r)
    ensures WrapRun(r, pre, post) == pre + r + post
  {
    TrailingDigitsAll(r);
    assert BeforeTrailingDigits(r) + pre == pre;
  }

  lemma PercentDecorate()
    ensures Decorate("123", "3KR") == Success(State("123%", true))
  {
    Control3KR();
    PercentBranch();
    PercentWrap123();
  }

  lemma PercentRendered()
    ensures Rendered(State("12", false), "3KR") == "123" && Permitted("3KR")
  {
    Render3KR();
    assert "12" + "3" == "123";
  }

  lemma PercentStroke()
    ensures Step(State("12", false), "3KR") == Success(State("123%", true))
  {
    PercentRendered();
    PercentDecorate();
  }

  /** Percent after the digits of earlier strokes: the whole trailing run
      gets the sign. */
  lemma Percent123()
    ensures LookupOf(["12", "3KR"]) == Success("123%")
  {
    PlainDigits();
    PercentRun();
    RunCons(Start, ["12", "3KR"], State("12", false));
    assert ["12", "3KR"][1..] == ["3KR"];
  }

  lemma PercentRun()
    ensures RunFrom(State("12", false), ["3KR"]) == Success(State("123%", true))
  {
    PercentStroke();
    RunCons(State("12", false), ["3KR"], State("123%", true));
    assert ["3KR"][1..] == [];
  }

  lemma Render1KR()
    ensures Digits("1KR") == "1" && Permitted("1KR")
  {
    assert DigitsOf("1KR") == "1";
    DigitsUnmodified("1KR");
  }

  lemma Control1KR()
    ensures LookupControl("1KR") == "KR"
  {
    ControlKR("1KR");
  }

  lemma PercentWrap1()
    ensures WrapRun("1", "", "%") == "1%"
  {
    WrapWhole("1", "", "%");
    assert "" + "1" + "%" == "1%";
  }

  lemma OnePercentDecorate()
    ensures Decorate("1", "1KR") == Success(State("1%", true))
  {
    Control1KR();
    PercentBranch();
    PercentWrap1();
  }

  lemma OnePercent()
    ensures Step(Start, "1KR") == Success(State("1%", true))
  {
    Render1KR();
    assert Rendered(Start, "1KR") == "1";
    OnePercentDecorate();
  }

  lemma Render0R()
    ensures Digits("0R") == "0" && Permitted("0R")
  {
    assert DigitsOf("0R") == "0";
    DigitsUnmodified("0R");
  }

  lemma Control0R()
    ensures LookupControl("0R") == "R"
  {
  }

  lemma RomanBranchR()
    ensures BranchOf("R") == RomanNumeral
    ensures Without(Without("R", "R"), "DZ*") == []
  {
  }

  /** A decorated stroke followed by R on a zero run: the space that the
      decoration asked for is left at the end, because the numeral for 0
      is empty. */
  lemma TrailingSpace()
    ensures LookupOf(["1KR", "0R"]) == Success("1% ")
  {
    OnePercent();
    ZeroNumeral();
    RunCons(Start, ["1KR", "0R"], State("1%", true));
    assert ["1KR", "0R"][1..] == ["0R"];
    RunCons(State("1%", true), ["0R"], State("1% ", true));
    assert ["0R"][1..] == [];
  }

  lemma ZeroNumeral()
    ensures Step(State("1%", true), "0R") == Success(State("1% ", true))
  {
    Render0R();
    Control0R();
    RomanBranchR();
    SpaceLeftAtEnd(State("1%", true), "0R");
    SpacedText();
  }

  /** The text ZeroNumeral ends with: the old text and the pending space. */
  lemma SpacedText()
    ensures "1%" + " " == "1% "
  {
  }

  lemma Render5DZPoint()
    ensures Digits("5DZ*") == "5." && Permitted("5DZ*")
  {
    Split5DZPoint();
    assert Contains("DZ*", "DZ");
    NotReversed("5DZ*", "5", "DZ*");
    PointDZ();
  }

  lemma PointDZ()
    ensures Point("DZ*") == "." && "5" + "." == "5."
  {
    assert '*' in "DZ*" && 'R' !in "DZ*" && 'S' !in "DZ*";
  }

  lemma Split5DZPoint()
    ensures DigitsOf("5DZ*") == "5" && NonDigitsOf("5DZ*") == "DZ*"
    ensures !Reverses("5DZ*") && "5DZ*" != "0*Z"
  {
    assert DigitsOf("5DZ*") == "5" && NonDigitsOf("5DZ*") == "DZ*";
    assert "5DZ*"[0] != "0*Z"[0];
  }

  /** A stroke with digits, without E and U, and whose control keys hold
      "DZ" or neither Z nor D renders as its digits and the point, if any. */
  lemma NotReversed(val: string, ds: string, control: string)
    requires val != "0*Z" && !Reverses(val)
    requires DigitsOf(val) == ds && ds != [] && NonDigitsOf(val) == control
    requires Contains(control, "DZ") || ('Z' !in control && 'D' !in control)
    ensures Digits(val) == ds + Point(control)
  {
    SuffixedPlain(ds, control);
  }

  lemma Control5DZPoint()
    ensures LookupControl("5DZ*") == "DZ*"
    ensures BranchOf("DZ*") == DollarHundreds
    ensures Without("DZ*", "DZ*") == []
  {
    Keys5DZPoint();
    BranchDZPoint();
    WithoutEmpty("DZ*", "DZ*");
  }

  lemma Keys5DZPoint()
    ensures LookupControl("5DZ*") == "DZ*"
  {
    var drop := "0123456789#-EU";
    assert "*"[1..] == [] && Without("*", drop) == "*";
    assert "Z*"[1..] == "*" && Without("Z*", drop) == "Z*";
    assert "DZ*"[1..] == "Z*" && Without("DZ*", drop) == "DZ*";
    assert "5DZ*"[1..] == "DZ*";
  }

  lemma BranchDZPoint()
    ensures BranchOf("DZ*") == DollarHundreds
  {
    assert "DZ*"[..2] == "DZ";
    assert 'R' !in "DZ*" && 'W' !in "DZ*" && 'K' !in "DZ*";
    ContainsFirst("DZ*", "RB");
    ContainsFirst("DZ*", "WR");
    ContainsFirst("DZ*", "KR");
    ContainsFirst("DZ*", "RG");
  }

  /** "5DZ*" renders as "5.": DZ finds no digit run after the point, yet it
      still asks for a space. */
  lemma PointThenDollarHundreds()
    ensures Step(Start, "5DZ*") == Success(State("5.", true))
  {
    Render5DZPoint();
    assert Rendered(Start, "5DZ*") == "5.";
    PointDecorate();
  }

  lemma PointDecorate()
    ensures Decorate("5.", "5DZ*") == Success(State("5.", true))
  {
    Control5DZPoint();
    assert TrailingDigits("5.") == [];
    DollarHundredsWithoutRun("5.", "5DZ*");
  }

  /** A run goes on from the state its first stroke leaves. */
  lemma RunCons(s: State, key: seq<string>, t: State)
    requires key != [] && Step(s, key[0]) == Success(t)
    ensures RunFrom(s, key) == RunFrom(t, key[1..])
  {
  }

  /** K with B and G gives a quarter to, K with G a quarter past; B and G
      without K give the hour. */
  lemma ClockMinutes()
    ensures ClockSuffix("KBG") == ":45"
    ensures ClockSuffix("KG") == ":15"
    ensures ClockSuffix("BG") == ":00"
  {
    assert "KBG"[1..] == "BG";
    ContainsSameLength("BG", "BG");
    ContainsSameLength("KG", "BG");
  }

  /** S adds " a.m." with the star and " p.m." without. */
  lemma ClockMeridiem()
    ensures ClockSuffix("KBS*") == ":30 a.m."
    ensures ClockSuffix("KS") == ":00 p.m."
  {
    assert "KBS*"[1..] == "BS*";
    assert "BS*"[1..] == "S*";
    ContainsSameLength("S*", "BG");
    ContainsSameLength("KS", "BG");
  }

  lemma OrdinalSuffixes()
    ensures OrdinalSuffix("1") == "st"
    ensures OrdinalSuffix("22") == "nd"
    ensures OrdinalSuffix("103") == "rd"
    ensures OrdinalSuffix("11") == "th"
    ensures OrdinalSuffix("112") == "th"
    ensures OrdinalSuffix("40") == "th"
  {
  }

  /** G after two plain strokes spells the whole digit text. */
  lemma WordsTwelve()
    ensures LookupOf(["1", "2G"]) == Success("twelve")
  {
    PlainOne();
    SpelledRun();
    RunCons(Start, ["1", "2G"], State("1", false));
    assert ["1", "2G"][1..] == ["2G"];
  }

  lemma SpelledRun()
    ensures RunFrom(State("1", false), ["2G"]) == Success(State("twelve", true))
  {
    SpellTwelve();
    LastStroke(State("1", false), "2G", State("twelve", true));
  }

  /** A run of one stroke ends in the state that stroke leaves. */
  lemma LastStroke(s: State, k: string, t: State)
    requires Step(s, k) == Success(t)
    ensures RunFrom(s, [k]) == Success(t)
  {
    RunCons(s, [k], t);
    assert [k][1..] == [];
  }

  lemma PlainOne()
    ensures Step(Start, "1") == Success(State("1", false))
  {
    assert DigitsOf("1") == "1";
    DigitsUnmodified("1");
    DigitStroke(Start, "1");
    assert Rendered(Start, "1") == "1";
  }

  lemma SpellTwelve()
    ensures Step(State("1", false), "2G") == Success(State("twelve", true))
  {
    Render2G();
    assert Rendered(State("1", false), "2G") == "12";
    DecorateWords();
  }

  lemma Render2G()
    ensures Digits("2G") == "2" && Permitted("2G")
  {
    assert DigitsOf("2G") == "2";
    DigitsUnmodified("2G");
  }

  lemma DecorateWords()
    ensures Decorate("12", "2G") == Success(State("twelve", true))
  {
    ControlG();
    WordsSucceedIff("12", "2G");
    Twelve();
  }

  lemma ControlG()
    ensures LookupControl("2G") == "G" && BranchOf("G") == InWords
    ensures Without(Without("G", "G"), "DZ*") == []
  {
    assert "2G"[1..] == "G";
  }

  /** R with the star turns the digits of the same stroke into a lower-case
      numeral. */
  lemma RomanTwelve()
    ensures LookupOf(["12*R"]) == Success("xii")
  {
    LowerTwelve();
    RunCons(Start, ["12*R"], State("xii", true));
    assert ["12*R"][1..] == [];
  }

  lemma LowerTwelve()
    ensures Step(Start, "12*R") == Success(State("xii", true))
  {
    Render12PointR();
    assert Rendered(Start, "12*R") == "12";
    DecorateTwelve();
  }

  lemma Render12PointR()
    ensures Digits("12*R") == "12" && Permitted("12*R")
  {
    assert DigitsOf("12*R") == "12" && NonDigitsOf("12*R") == "*R";
    assert !Reverses("12*R") && "12*R"[0] != "0*Z"[0];
    NotReversed("12*R", "12", "*R");
    assert Point("*R") == "" && "12" + "" == "12";
  }

  lemma DecorateTwelve()
    ensures Decorate("12", "12*R") == Success(State("xii", true))
  {
    KeysPointR();
    BranchPointR();
    assert Value("12") == 12;
    RomanWhole("12", "12*R");
    LowerXii();
  }

  lemma LowerXii()
    ensures Numeral(12, true) == "xii"
  {
    Roman12();
    assert Lower("XII") == "xii";
  }

  lemma KeysPointR()
    ensures LookupControl("12*R") == "*R"
  {
    var drop := "0123456789#-EU";
    assert "R"[1..] == [] && Without("R", drop) == "R";
    assert "*R"[1..] == "R" && Without("*R", drop) == "*R";
    assert "2*R"[1..] == "*R" && "12*R"[1..] == "2*R";
  }

  lemma BranchPointR()
    ensures BranchOf("*R") == RomanNumeral
    ensures Without("*R", "R") == "*" && Without("*", "DZ*") == []
  {
    ContainsSameLength("*R", "RB");
    ContainsSameLength("*R", "WR");
    ContainsSameLength("*R", "KR");
    ContainsSameLength("*R", "RG");
    ContainsSameLength("*R", "DZ");
    ContainsSameLength("*R", "BG");
    assert "*R"[1..] == "R";
  }

  /** RB puts a dollar sign before the digits of its own stroke. */
  lemma DollarsTwelve()
    ensures LookupOf(["12RB"]) == Success("$12")
  {
    DollarsStroke();
    LastStroke(Start, "12RB", State("$12", true));
  }

  lemma DollarsStroke()
    ensures Step(Start, "12RB") == Success(State("$12", true))
  {
    Render12RB();
    assert Rendered(Start, "12RB") == "12";
    DollarsDecorate();
  }

  lemma Render12RB()
    ensures Digits("12RB") == "12" && Permitted("12RB")
  {
    assert DigitsOf("12RB") == "12";
    DigitsUnmodified("12RB");
  }

  lemma DollarsDecorate()
    ensures Decorate("12", "12RB") == Success(State("$12", true))
  {
    ControlRB();
    DollarsWrap12();
  }

  lemma DollarsWrap12()
    ensures WrapRun("12", "$", "") == "$12"
  {
    WrapWhole("12", "$", "");
    assert "$" + "12" + "" == "$12";
  }

  lemma ControlRB()
    ensures LookupControl("12RB") == "RB"
    ensures BranchOf("RB") == Dollars("RB") && Without(RemoveAll("RB", "RB"), "DZ*") == []
  {
    var drop := "0123456789#-EU";
    assert "B"[1..] == [] && Without("B", drop) == "B";
    assert "RB"[1..] == "B" && Without("RB", drop) == "RB";
    assert "2RB"[1..] == "RB" && "12RB"[1..] == "2RB";
    ContainsSameLength("RB", "RB");
    assert RemoveAll("RB", "RB") == RemoveAll("", "RB");
  }

  /** DZ turns the digits of its stroke into dollar hundreds: "5DZ"
      renders as "5" and becomes "$500". */
  lemma DollarHundredsFive()
    ensures LookupOf(["5DZ"]) == Success("$500")
  {
    DollarHundredsStroke();
    LastStroke(Start, "5DZ", State("$500", true));
  }

  lemma DollarHundredsStroke()
    ensures Step(Start, "5DZ") == Success(State("$500", true))
  {
    DoubledZerosCancel();
    assert DigitsOf("5DZ") == "5";
    assert Rendered(Start, "5DZ") == "5";
    DollarHundredsDecorate();
  }

  lemma DollarHundredsDecorate()
    ensures Decorate("5", "5DZ") == Success(State("$500", true))
  {
    ControlDZ();
    DollarHundredsWrap5();
  }

  lemma DollarHundredsWrap5()
    ensures WrapRun("5", "$", "00") == "$500"
  {
    WrapWhole("5", "$", "00");
    DollarHundredsText();
  }

  lemma DollarHundredsText()
    ensures "$" + "5" + "00" == "$500"
  {
  }

  lemma ControlDZ()
    ensures LookupControl("5DZ") == "DZ"
    ensures BranchOf("DZ") == DollarHundreds && Without("DZ", "DZ*") == []
  {
    KeysDZ();
    BranchDZ();
  }

  lemma KeysDZ()
    ensures LookupControl("5DZ") == "DZ"
  {
    var drop := "0123456789#-EU";
    assert "Z"[1..] == [] && Without("Z", drop) == "Z";
    assert "DZ"[1..] == "Z" && Without("DZ", drop) == "DZ";
    assert "5DZ"[1..] == "DZ";
  }

  lemma BranchDZ()
    ensures BranchOf("DZ") == DollarHundreds && Without("DZ", "DZ*") == []
  {
    ContainsSameLength("DZ", "RB");
    ContainsSameLength("DZ", "WR");
    ContainsSameLength("DZ", "KR");
    ContainsSameLength("DZ", "RG");
    ContainsSameLength("DZ", "DZ");
  }
}
