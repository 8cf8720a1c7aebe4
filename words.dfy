/** Spelling a digit string as English words (`toWords`). */
module EnglishWords {
  import opened Text
  import opened Tables

  /** Left-pads with zeros to a multiple of three digits, but only strings
      longer than three digits. */
  function Padded(n: string): string {
    if |n| % 3 != 0 && |n| > 3 then ZeroFill(n, 3 * ((|n| - 1) / 3 + 1)) else n
  }

  /** `n` cut into groups of three characters from the left; the last group
      may be shorter. */
  function Chunks(n: string): (gs: seq<string>)
    ensures |gs| == (|n| + 2) / 3
  {
    if n == [] then []
    else if |n| <= 3 then [n]
    else [n[..3]] + Chunks(n[3..])
  }

  /** Every group has one to three characters, and the groups of a digit
      string are digit strings. */
  lemma {:induction false} ChunksShape(n: string)
    ensures forall j :: 0 <= j < |Chunks(n)| ==> 1 <= |Chunks(n)[j]| <= 3
    ensures AllDigits(n) ==> forall j :: 0 <= j < |Chunks(n)| ==> AllDigits(Chunks(n)[j])
    decreases |n|
  {
    if |n| > 3 {
      ChunksShape(n[3..]);
      var gs := Chunks(n);
      assert gs == [n[..3]] + Chunks(n[3..]);
      forall j | 0 <= j < |gs|
        ensures 1 <= |gs[j]| <= 3 && (AllDigits(n) ==> AllDigits(gs[j]))
      {
        if j > 0 {
          assert gs[j] == Chunks(n[3..])[j - 1];
        }
      }
    }
  }

  /** The groups of three digits `toWords` works through, most significant first. */
  function Groups(n: string): seq<string> {
    Chunks(Padded(n))
  }

  /** Groups the words encoder can handle: digit strings of at most three
      characters, and no more groups than there are scale words plus one. */
  predicate ValidGroups(gs: seq<string>) {
    |gs| <= |LargeSumWords| + 1 &&
    forall j :: 0 <= j < |gs| ==> |gs[j]| <= 3 && AllDigits(gs[j])
  }

  lemma GroupsValid(n: string)
    requires AllDigits(n) && |n| <= 33
    ensures ValidGroups(Groups(n))
  {
    ChunksShape(Padded(n));
    var p := Padded(n);
    assert AllDigits(p) && |p| <= 33 by {
      if |n| % 3 != 0 && |n| > 3 {
        var w := 3 * ((|n| - 1) / 3 + 1);
        assert w <= 33;
        ZeroFillShape(n, w);
        forall i | 0 <= i < |p| ensures IsDigit(p[i]) {
          if i >= |p| - |n| {
            assert p[i] == p[|p| - |n|..][i - (|p| - |n|)];
          }
        }
      }
    }
  }

  /** "ten" to "nineteen" for the units digit `u`. */
  function Teen(u: char): string
    requires IsDigit(u)
  {
    if u <= '2' then TwoDigitWords[u as int - '0' as int]
    else
      var stem := if u == '3' || u == '5' then Stem(u) else OneWord(u);
      stem + (if stem[|stem| - 1] != 't' then "teen" else "een")
  }

  /** "twenty" to "ninety-nine" for the tens digit `t` (2 to 9) and units `u`. */
  function Tens(t: char, u: char): string {
    Stem(t) + (if t != '8' then "ty" else "y") + (if u != '0' then "-" + OneWord(u) else "")
  }

  /** The words for ten to nineteen and for twenty, thirty, ... ninety,
      written out in full: a reference the stem-and-suffix construction of
      `Teen` and `Tens` is checked against. */
  const TeenNames: seq<string> :=
    ["ten", "eleven", "twelve", "thirteen", "fourteen",
     "fifteen", "sixteen", "seventeen", "eighteen", "nineteen"]

  const TensNames: seq<string> :=
    ["twenty", "thirty", "forty", "fifty", "sixty", "seventy", "eighty", "ninety"]

  /** The reference word for two digits `num` whose tens digit is not zero:
      a teen word, or a tens word joined to the unit's word by a hyphen
      unless the unit is zero. */
  function TwoDigitName(num: string): string
    requires |num| == 2 && AllDigits(num) && num[0] != '0'
  {
    var t := num[0] as int - '0' as int;
    var u := num[1] as int - '0' as int;
    if t == 1 then TeenNames[u]
    else TensNames[t - 2] + (if u != 0 then "-" + OneWord(num[1]) else "")
  }

  /** Every teen word is the reference word. */
  lemma TeenByTable(u: char)
    requires IsDigit(u)
    ensures Teen(u) == TeenNames[u as int - '0' as int]
  {
    if u == '3' {
      assert "thir" + "teen" == "thirteen";
    } else if u == '5' {
      assert "fif" + "teen" == "fifteen";
    } else if u == '8' {
      assert "eight" + "een" == "eighteen";
    }
  }

  /** Every word from twenty to ninety-nine is the reference tens word,
      then the unit's word after a hyphen unless the unit is zero. */
  lemma TensByTable(t: char, u: char)
    requires '2' <= t <= '9' && IsDigit(u)
    ensures Tens(t, u) == TensNames[t as int - '2' as int] + (if u != '0' then "-" + OneWord(u) else "")
  {
  }

  /** Two digits without a leading zero are spelled as the reference
      tables say. */
  lemma BelowHundredByTable(num: string)
    requires |num| == 2 && AllDigits(num) && num[0] != '0'
    ensures BelowHundred(num) == TwoDigitName(num)
  {
    if num[0] == '1' {
      TeenByTable(num[1]);
    } else {
      TensByTable(num[0], num[1]);
    }
  }

  /** The word for a number from 1 to 99 written without leading zeros. */
  function BelowHundred(s: string): string
    requires 1 <= |s| <= 2 && AllDigits(s)
  {
    if |s| == 1 then OneWord(s[0])
    else if s[0] == '1' then Teen(s[1])
    else Tens(s[0], s[1])
  }

  /** Appends a comma to the last word. */
  function AddComma(ws: seq<string>): seq<string>
    requires ws != []
  {
    ws[..|ws| - 1] + [ws[|ws| - 1] + ","]
  }

  /** What happens to the words so far before a word below one hundred is
      added: "and" after a hundred or within the last group, a comma after a
      scale word, nothing otherwise (and nothing at the very start). */
  function Joined(ws: seq<string>, last: bool): seq<string> {
    if ws == [] then ws
    else if Contains(ws[|ws| - 1], Hundred) || last then ws + ["and"]
    else if ws[|ws| - 1] in LargeSumWords then AddComma(ws)
    else ws
  }

  /** The words so far after spelling the group `g` (up to three digits),
      `last` telling whether it is the final group. Leading zeros are
      skipped; a group without a nonzero digit adds nothing; one or two
      digits make a number below one hundred; a third digit makes the
      hundreds word, after which the other two digits are spelled the same
      way unless both are zero. */
  function GroupWords(ws: seq<string>, g: string, last: bool): seq<string>
    requires |g| <= 3 && AllDigits(g)
    decreases |g|
  {
    if g == [] then ws
    else if g[0] == '0' then GroupWords(ws, g[1..], last)
    else if |g| <= 2 then Joined(ws, last) + [BelowHundred(g)]
    else
      var ws' := (if ws == [] then [] else AddComma(ws)) + [OneWord(g[0]) + " " + Hundred];
      if g[1..] == "00" then ws' else GroupWords(ws', g[1..], last)
  }

  /** Group `j` is followed by its scale word exactly when it is not the last
      group and it is either the first group or holds a nonzero digit. */
  predicate EmitsScale(gs: seq<string>, j: nat) {
    j < |gs| - 1 && (gs[j] != "000" || j == 0)
  }

  /** The words so far after group `j` and, where it has one, its scale word. */
  function GroupAndScale(ws: seq<string>, gs: seq<string>, j: nat): seq<string>
    requires ValidGroups(gs) && j < |gs|
  {
    var ws' := GroupWords(ws, gs[j], j == |gs| - 1);
    if EmitsScale(gs, j) then ws' + [LargeSumWords[|gs| - j - 2]] else ws'
  }

  lemma ScaleStep(ws: seq<string>, gs: seq<string>, j: nat, grouped: seq<string>)
    requires ValidGroups(gs) && j < |gs|
    requires grouped == GroupWords(ws, gs[j], j == |gs| - 1)
    ensures GroupAndScale(ws, gs, j) ==
      if EmitsScale(gs, j) then grouped + [LargeSumWords[|gs| - j - 2]] else grouped
  {
  }

  /** The words so far after spelling groups `j` onwards. */
  function WordsFrom(ws: seq<string>, gs: seq<string>, j: nat): seq<string>
    requires ValidGroups(gs) && j <= |gs|
    decreases |gs| - j
  {
    if j == |gs| then ws else WordsFrom(GroupAndScale(ws, gs, j), gs, j + 1)
  }

  /** The words for the digit string `n`. */
  function WordList(n: string): seq<string>
    requires AllDigits(n) && |n| <= 33
  {
    GroupsValid(n);
    WordsFrom([], Groups(n), 0)
  }

  /** What `toWords(n)` returns. */
  function Words(n: string): string
    requires AllDigits(n) && |n| <= 33
  {
    JoinSpaced(WordList(n))
  }

  /** Leading zeros do not change how a group is spelled. */
  lemma {:induction false} GroupWordsStripped(ws: seq<string>, g: string, last: bool)
    requires |g| <= 3 && AllDigits(g)
    ensures GroupWords(ws, StripZeros(g), last) == GroupWords(ws, g, last)
    decreases |g|
  {
    if g != [] && g[0] == '0' {
      GroupWordsStripped(ws, g[1..], last);
    }
  }

  /** What `toWords` does to the words so far before it spells a number
      below one hundred. */
  method JoinBelowHundred(w0: seq<string>, last: bool) returns (word: seq<string>)
    ensures word == Joined(w0, last)
  {
    word := w0;
    if |word| > 0 {
      if Contains(word[|word| - 1], Hundred) || last {
        word := word + ["and"];
      } else if word[|word| - 1] in LargeSumWords {
        word := AddComma(word);
      }
    }
  }

  /** The word `toWords` appends for two digits without a leading zero:
      the reference teen or tens word for them. */
  method TwoDigitWord(num: string) returns (w: string)
    requires |num| == 2 && AllDigits(num) && num[0] != '0'
    ensures w == TwoDigitName(num)
    ensures w == BelowHundred(num)
  {
    BelowHundredByTable(num);
    if num[0] == '1' {
      w := Teen(num[1]);
    } else {
      w := Tens(num[0], num[1]);
    }
  }

  /** The body of `toWords` for one group `g`: strip leading zeros, then
      spell a one- or two-digit remainder and stop, or spell the hundreds
      digit and go on with the last two digits unless both are zero. */
  method SpellGroup(w0: seq<string>, g: string, last: bool) returns (word: seq<string>)
    requires |g| <= 3 && AllDigits(g)
    ensures word == GroupWords(w0, g, last)
  {
    ghost var target := GroupWords(w0, g, last);
    word := w0;
    var num := g;
    for k := 0 to |g|
      invariant AllDigits(num) && |num| + k <= |g|
      invariant GroupWords(word, num, last) == target
    {
      GroupWordsStripped(word, num, last);
      num := StripZeros(num);
      if |num| == 1 {
        word := JoinBelowHundred(word, last);
        word := word + [OneWord(num[0])];
        num := num[1..];
        return;
      }
      if |num| == 2 {
        word := JoinBelowHundred(word, last);
        var w := TwoDigitWord(num);
        word := word + [w];
        return;
      }
      if |num| == 3 {
        if |word| > 0 {
          word := AddComma(word);
        }
        word := word + [OneWord(num[0]) + " " + Hundred];
        if num[1..] == "00" {
          return;
        }
        num := num[1..];
      }
    }
  }

  /** The main loop of `toWords`: spell each group and put the scale word
      after it, except after a "000" group that follows one which already
      carried a scale word. */
  method SpellGroups(sumList: seq<string>) returns (word: seq<string>)
    requires ValidGroups(sumList)
    ensures word == WordsFrom([], sumList, 0)
  {
    word := [];
    var skip := false;
    for i := 0 to |sumList|
      invariant WordsFrom(word, sumList, i) == WordsFrom([], sumList, 0)
      invariant i == 0 ==> !skip
      invariant 0 < i < |sumList| ==> skip
    {
      var num := sumList[i];
      if num != "000" {
        skip := false;
      }
      ghost var w0 := word;
      word := SpellGroup(word, num, i == |sumList| - 1);
      ghost var grouped := word;
      if |sumList| - i > 1 && !skip {
        assert EmitsScale(sumList, i);
        word := word + [LargeSumWords[|sumList| - i - 2]];
        skip := true;
      } else {
        assert !EmitsScale(sumList, i);
      }
      ScaleStep(w0, sumList, i, grouped);
    }
  }

  /** `toWords`: pad to whole groups of three, cut into groups and spell
      them, joining the words with single spaces. */
  method ToWords(n0: string) returns (r: string)
    requires AllDigits(n0) && |n0| <= 33
    ensures r == Words(n0)
  {
    var n := n0;
    if |n| % 3 != 0 && |n| > 3 {
      n := ZeroFill(n, 3 * ((|n| - 1) / 3 + 1));
    }
    var sumList := Chunks(n);
    GroupsValid(n0);
    assert sumList == Groups(n0);
    var word := SpellGroups(sumList);
    r := JoinSpaced(word);
  }
}
