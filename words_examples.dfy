/** Worked examples of `toWords`: the irregular stems, "and" after a
    hundred and in the last group, a scale word that is not repeated after
    all-zero groups, and a leading all-zero group that still gets its scale
    word. */
module WordsExamples {
  import opened Text
  import opened Tables
  import opened EnglishWords
  import WordsFacts

  /** Irregular stems: "fif-", "thir-", "eigh-" + "teen" drops a "t", and
      "for-", "eigh-" + "ty". */
  lemma StemWords()
    ensures Teen('1') == "eleven" && Teen('3') == "thirteen"
    ensures Teen('5') == "fifteen" && Teen('8') == "eighteen"
    ensures Tens('4', '0') == "forty" && Tens('8', '0') == "eighty"
    ensures Tens('2', '3') == "twenty-three"
  {
    TeenStems();
    TensStems();
  }

  lemma TeenStems()
    ensures Teen('1') == "eleven" && Teen('3') == "thirteen"
    ensures Teen('5') == "fifteen" && Teen('8') == "eighteen"
  {
    assert "thir" + "teen" == "thirteen";
    assert "fif" + "teen" == "fifteen";
    assert "eight" + "een" == "eighteen";
  }

  lemma TensStems()
    ensures Tens('4', '0') == "forty" && Tens('8', '0') == "eighty"
    ensures Tens('2', '3') == "twenty-three"
  {
  }

  /** "123" as the last group: the hundreds word, then "and". */
  lemma HundredsGroup()
    ensures GroupWords([], "123", true) == ["one hundred", "and", "twenty-three"]
  {
    assert "123"[1..] == "23";
    assert OneWord('1') + " " + Hundred == "one hundred";
    assert BelowHundred("23") == "twenty-three";
    assert Joined(["one hundred"], true) == ["one hundred", "and"];
  }

  lemma GroupsOf1001()
    ensures Groups("1001") == ["001", "001"]
  {
    assert seq(2, _ => '0') == "00";
    assert ZeroFill("1001", 6) == "001001";
    assert "001001"[..3] == "001" && "001001"[3..] == "001";
  }

  lemma WordsOf1001()
    ensures WordsFrom([], ["001", "001"], 0) == ["one", "thousand", "and", "one"]
  {
    FirstOf1001();
    SecondOf1001();
  }

  lemma FirstOf1001()
    ensures GroupAndScale([], ["001", "001"], 0) == ["one", "thousand"]
  {
    assert "001"[1..] == "01" && "01"[1..] == "1";
    assert GroupWords([], "001", false) == ["one"];
  }

  lemma SecondOf1001()
    ensures GroupAndScale(["one", "thousand"], ["001", "001"], 1) == ["one", "thousand", "and", "one"]
  {
    assert "001"[1..] == "01" && "01"[1..] == "1";
    assert Joined(["one", "thousand"], true) == ["one", "thousand", "and"];
    assert GroupWords(["one", "thousand"], "001", true) == ["one", "thousand", "and", "one"];
  }

  /** Padding to "001001", and "and" before a number in the last group. */
  lemma ThousandAndOne()
    ensures Words("1001") == "one thousand and one"
  {
    GroupsOf1001();
    WordsOf1001();
  }

  lemma GroupsOfMillion()
    ensures Groups("1000000") == ["001", "000", "000"]
  {
    assert seq(2, _ => '0') == "00";
    assert ZeroFill("1000000", 9) == "001000000";
    var p := "001000000";
    assert p[..3] == "001" && p[3..] == "000000";
    assert p[3..][..3] == "000" && p[3..][3..] == "000";
  }

  lemma WordsOfMillion()
    ensures WordsFrom([], ["001", "000", "000"], 0) == ["one", "million"]
  {
    var gs := ["001", "000", "000"];
    assert "001"[1..] == "01" && "01"[1..] == "1";
    assert "000"[1..] == "00" && "00"[1..] == "0" && "0"[1..] == "";
    assert GroupAndScale([], gs, 0) == ["one", "million"];
    assert GroupAndScale(["one", "million"], gs, 1) == ["one", "million"];
    assert GroupAndScale(["one", "million"], gs, 2) == ["one", "million"];
  }

  /** The "000" groups after the first add neither words nor a scale word. */
  lemma OneMillion()
    ensures Words("1000000") == "one million"
  {
    GroupsOfMillion();
    WordsOfMillion();
  }

  lemma GroupsOf1001001()
    ensures Groups("1001001") == ["001", "001", "001"]
  {
    assert seq(2, _ => '0') == "00";
    assert ZeroFill("1001001", 9) == "001001001";
    var p := "001001001";
    assert p[..3] == "001" && p[3..] == "001001";
    assert p[3..][..3] == "001" && p[3..][3..] == "001";
  }

  lemma FirstOf1001001()
    ensures GroupAndScale([], ["001", "001", "001"], 0) == ["one", "million"]
  {
    assert "001"[1..] == "01" && "01"[1..] == "1";
    assert GroupWords([], "001", false) == ["one"];
  }

  /** The comma goes on "million" because "one" follows it in a group that
      is not the last. */
  lemma SecondOf1001001()
    ensures GroupAndScale(["one", "million"], ["001", "001", "001"], 1) ==
      ["one", "million,", "one", "thousand"]
  {
    assert "001"[1..] == "01" && "01"[1..] == "1";
    assert LargeSumWords[1] == "million";
    WordsFacts.JoinedComma(["one", "million"]);
    assert "million" + "," == "million,";
    assert ["one", "million"][..1] == ["one"];
    assert GroupWords(["one", "million"], "001", false) == ["one", "million,", "one"];
  }

  lemma ThirdOf1001001()
    ensures GroupAndScale(["one", "million,", "one", "thousand"], ["001", "001", "001"], 2) ==
      ["one", "million,", "one", "thousand", "and", "one"]
  {
    assert "001"[1..] == "01" && "01"[1..] == "1";
    assert Joined(["one", "million,", "one", "thousand"], true) ==
      ["one", "million,", "one", "thousand", "and"];
  }

  lemma WordsOf1001001()
    ensures WordsFrom([], ["001", "001", "001"], 0) ==
      ["one", "million,", "one", "thousand", "and", "one"]
  {
    FirstOf1001001();
    SecondOf1001001();
    ThirdOf1001001();
  }

  /** A scale word followed by a number below one hundred outside the last
      group takes a comma; the last group takes "and". */
  lemma MillionThousandAndOne()
    ensures Words("1001001") == "one million, one thousand and one"
  {
    WordListOf1001001();
    SpacedOf1001001();
  }

  lemma WordListOf1001001()
    ensures WordList("1001001") == ["one", "million,", "one", "thousand", "and", "one"]
  {
    GroupsOf1001001();
    WordsOf1001001();
  }

  lemma SpacedOf1001001()
    ensures JoinSpaced(["one", "million,", "one", "thousand", "and", "one"]) ==
      "one million, one thousand and one"
  {
    SpacedSix("one", "million,", "one", "thousand", "and", "one");
    TextOf1001001();
  }

  /** Six words joined by spaces, for any six words. */
  lemma SpacedSix(a: string, b: string, c: string, d: string, e: string, f: string)
    ensures JoinSpaced([a, b, c, d, e, f]) == a + " " + b + " " + c + " " + d + " " + e + " " + f
  {
    assert [e, f][1..] == [f];
    assert JoinSpaced([e, f]) == e + " " + f;
    assert [d, e, f][1..] == [e, f];
    assert JoinSpaced([d, e, f]) == d + " " + e + " " + f;
    assert [c, d, e, f][1..] == [d, e, f];
    assert JoinSpaced([c, d, e, f]) == c + " " + d + " " + e + " " + f;
    assert [b, c, d, e, f][1..] == [c, d, e, f];
    assert JoinSpaced([b, c, d, e, f]) == b + " " + c + " " + d + " " + e + " " + f;
    assert [a, b, c, d, e, f][1..] == [b, c, d, e, f];
  }

  lemma TextOf1001001()
    ensures "one" + " " + "million," + " " + "one" + " " + "thousand" + " " + "and" + " " + "one" ==
      "one million, one thousand and one"
  {
  }

  /** Six digits are not padded and make two groups of three. */
  lemma SixDigitGroups(n: string)
    requires |n| == 6
    ensures Groups(n) == [n[..3], n[3..]]
  {
    assert Padded(n) == n;
    assert Chunks(n[3..]) == [n[3..]];
  }

  lemma WordsOfLeadingZeros()
    ensures WordsFrom([], ["000", "001"], 0) == ["thousand", "and", "one"]
  {
    var gs := ["000", "001"];
    assert "001"[1..] == "01" && "01"[1..] == "1";
    assert "000"[1..] == "00" && "00"[1..] == "0" && "0"[1..] == "";
    assert GroupAndScale([], gs, 0) == ["thousand"];
    assert GroupAndScale(["thousand"], gs, 1) == ["thousand", "and", "one"];
  }

  /** A six-digit string is not padded, and its first group is spelled
      even when it is "000": its scale word comes out on its own. */
  lemma LeadingZeroGroup()
    ensures Words("000001") == "thousand and one"
  {
    SixDigitGroups("000001");
    assert "000001"[..3] == "000" && "000001"[3..] == "001";
    WordsOfLeadingZeros();
  }

  lemma Fifteen()
    ensures Words("15") == "fifteen"
  {
    assert Groups("15") == ["15"];
    assert Teen('5') == "fifteen";
    assert BelowHundred("15") == "fifteen";
    assert GroupWords([], "15", true) == ["fifteen"];
  }

  lemma Twelve()
    ensures Words("12") == "twelve"
  {
    assert Groups("12") == ["12"];
    assert BelowHundred("12") == "twelve";
    assert GroupWords([], "12", true) == ["twelve"];
  }

  /** Nothing follows a hundred whose other two digits are zero. */
  lemma OneHundred()
    ensures Words("100") == "one hundred"
  {
    assert Groups("100") == ["100"];
    assert "100"[1..] == "00";
    assert OneWord('1') + " " + Hundred == "one hundred";
    assert GroupWords([], "100", true) == ["one hundred"];
  }

  lemma FirstGroupOf123456()
    ensures GroupWords([], "123", false) == ["one hundred", "and", "twenty-three"]
  {
    assert "123"[1..] == "23";
    assert OneWord('1') + " " + Hundred == "one hundred";
    HundredFirst([], "123", false);
    TwentyThreeAfterHundred();
  }

  /** A group with a nonzero hundreds digit and a nonzero rest: the
      hundreds word, then the rest. */
  lemma HundredFirst(ws: seq<string>, g: string, last: bool)
    requires |g| == 3 && AllDigits(g) && g[0] != '0' && g[1..] != "00"
    ensures GroupWords(ws, g, last) ==
      GroupWords((if ws == [] then [] else AddComma(ws)) + [OneWord(g[0]) + " " + Hundred], g[1..], last)
  {
  }

  lemma TwentyThreeAfterHundred()
    ensures GroupWords(["one hundred"], "23", false) == ["one hundred", "and", "twenty-three"]
  {
    assert BelowHundred("23") == "twenty-three";
    assert Joined(["one hundred"], false) == ["one hundred", "and"];
  }

  lemma FirstOf123456()
    ensures GroupAndScale([], ["123", "456"], 0) ==
      ["one hundred", "and", "twenty-three", "thousand"]
  {
    FirstGroupOf123456();
  }

  lemma CommaAfterThousand()
    ensures AddComma(["one hundred", "and", "twenty-three", "thousand"]) ==
      ["one hundred", "and", "twenty-three", "thousand,"]
  {
    assert "thousand" + "," == "thousand,";
  }

  lemma SecondOf123456()
    ensures GroupAndScale(["one hundred", "and", "twenty-three", "thousand"], ["123", "456"], 1) ==
      ["one hundred", "and", "twenty-three", "thousand,", "four hundred", "and", "fifty-six"]
  {
    var ws := ["one hundred", "and", "twenty-three", "thousand"];
    assert "456"[1..] == "56";
    CommaAfterThousand();
    assert OneWord('4') + " " + Hundred == "four hundred";
    assert BelowHundred("56") == "fifty-six";
    var ws' := AddComma(ws) + ["four hundred"];
    assert Joined(ws', true) == ws' + ["and"];
  }

  lemma WordsOf123456()
    ensures WordsFrom([], ["123", "456"], 0) ==
      ["one hundred", "and", "twenty-three", "thousand,", "four hundred", "and", "fifty-six"]
  {
    FirstOf123456();
    SecondOf123456();
  }

  /** A comma after a scale word that is followed by a hundred: the words
      read "one hundred and twenty-three thousand, four hundred and
      fifty-six". */
  lemma SixDigits()
    ensures WordList("123456") ==
      ["one hundred", "and", "twenty-three", "thousand,", "four hundred", "and", "fifty-six"]
  {
    SixDigitGroups("123456");
    assert "123456"[..3] == "123" && "123456"[3..] == "456";
    WordsOf123456();
  }
}
