/** Properties of the English spelling of digit strings: how the digits are
    cut into groups, when nothing at all is spelled, and that the word for
    the digit zero never appears. */
module WordsFacts {
  import opened Text
  import opened Tables
  import opened EnglishWords

  predicate AllZeros(s: string) {
    forall i :: 0 <= i < |s| ==> s[i] == '0'
  }

  /** The groups read one after another. */
  function Concat(gs: seq<string>): string {
    if gs == [] then [] else gs[0] + Concat(gs[1..])
  }

  /** Cutting into groups loses nothing and reorders nothing: read in order
      the groups give back the string, and every group but the last has
      three digits. */
  lemma {:induction false} ChunksConcat(n: string)
    ensures Concat(Chunks(n)) == n
    ensures forall j :: 0 <= j < |Chunks(n)| - 1 ==> |Chunks(n)[j]| == 3
    decreases |n|
  {
    if |n| > 3 {
      ChunksConcat(n[3..]);
      var gs := Chunks(n);
      assert gs[1..] == Chunks(n[3..]);
      assert n == n[..3] + n[3..];
      forall j | 0 <= j < |gs| - 1
        ensures |gs[j]| == 3
      {
        if j > 0 {
          assert gs[j] == Chunks(n[3..])[j - 1];
        }
      }
    }
  }

  /** Strings of up to three digits are left alone. Longer ones get fewer
      than three zeros in front, just enough to make the length a multiple
      of three, so that every group is a full three digits. */
  lemma PaddedShape(n: string)
    ensures |n| <= 3 ==> Padded(n) == n
    ensures |n| > 3 ==>
      var p := Padded(n);
      |p| % 3 == 0 && |n| <= |p| < |n| + 3 && p[|p| - |n|..] == n && AllZeros(p[..|p| - |n|])
  {
    if |n| > 3 && |n| % 3 != 0 {
      var p := Padded(n);
      var w := 3 * ((|n| - 1) / 3 + 1);
      assert |p| == w;
    }
  }

  /** Zeros in front do not change the value of a digit string. */
  lemma {:induction false} LeadingZerosValue(z: string, s: string)
    requires AllZeros(z) && AllDigits(s)
    ensures AllDigits(z + s) && Value(z + s) == Value(s)
    decreases |z| + |s|
  {
    if s == [] {
      assert z + s == z;
      if z != [] {
        LeadingZerosValue(z[..|z| - 1], []);
        assert z[..|z| - 1] + [] == z[..|z| - 1];
      }
    } else {
      var zs := z + s;
      assert zs[..|zs| - 1] == z + s[..|s| - 1];
      LeadingZerosValue(z, s[..|s| - 1]);
    }
  }

  /** The groups `toWords` works through are the digits of the string, with
      zeros in front that leave its value unchanged. */
  lemma GroupsReadBack(n: string)
    requires AllDigits(n)
    ensures var p := Concat(Groups(n));
      |p| >= |n| && p[|p| - |n|..] == n && AllZeros(p[..|p| - |n|]) &&
      AllDigits(p) && Value(p) == Value(n)
  {
    var p := Padded(n);
    ChunksConcat(p);
    PaddedShape(n);
    assert p == p[..|p| - |n|] + n;
    LeadingZerosValue(p[..|p| - |n|], n);
  }

  /** The ten scale words serve at most eleven groups, that is 33 digits. A
      longer string makes at least twelve groups, and its first group, which
      is always followed by a scale word, would need the word at index
      |gs| - 2, past the end of the table: there the words branch fails with
      an IndexError. */
  lemma ScaleLimit(n: string)
    ensures |LargeSumWords| == 10
    ensures |n| <= 33 <==> |Groups(n)| <= |LargeSumWords| + 1
    ensures |n| > 33 ==> EmitsScale(Groups(n), 0) && |Groups(n)| - 2 >= |LargeSumWords|
  {
    PaddedShape(n);
    var p := Padded(n);
    if |n| <= 33 {
      assert |p| <= 33;
    } else {
      assert |p| >= 34;
    }
  }

  /** `Joined` only adds a word or changes the last one. */
  lemma JoinedLength(ws: seq<string>, last: bool)
    ensures |ws| <= |Joined(ws, last)| <= |ws| + 1
  {
  }

  /** No scale word contains "hundred": only "thousand" has an h, and it
      has no e. */
  lemma ScaleWordsNoHundred(j: nat)
    requires j < |LargeSumWords|
    ensures !Contains(LargeSumWords[j], Hundred)
  {
    var w := LargeSumWords[j];
    if j == 0 {
      ContainsMember(w, Hundred, 5);
      assert Hundred[5] == 'e' && 'e' !in w;
    } else {
      ContainsFirst(w, Hundred);
      assert Hundred[0] == 'h' && 'h' !in w;
    }
  }

  /** Outside the last group, a number below one hundred that follows a
      scale word puts a comma on that word and adds nothing else. */
  lemma JoinedComma(ws: seq<string>)
    requires ws != [] && ws[|ws| - 1] in LargeSumWords
    ensures Joined(ws, false) == ws[..|ws| - 1] + [ws[|ws| - 1] + ","]
  {
    var j :| 0 <= j < |LargeSumWords| && LargeSumWords[j] == ws[|ws| - 1];
    ScaleWordsNoHundred(j);
  }

  /** Spelling a group never removes a word; it adds at least one exactly
      when the group holds a nonzero digit. */
  lemma {:induction false} GroupWordsGrows(ws: seq<string>, g: string, last: bool)
    requires |g| <= 3 && AllDigits(g)
    ensures |GroupWords(ws, g, last)| >= |ws|
    ensures AllZeros(g) <==> GroupWords(ws, g, last) == ws
    decreases |g|
  {
    if g == [] {
    } else if g[0] == '0' {
      GroupWordsGrows(ws, g[1..], last);
      assert AllZeros(g) <==> AllZeros(g[1..]);
    } else if |g| <= 2 {
      JoinedLength(ws, last);
    } else {
      var ws' := (if ws == [] then [] else AddComma(ws)) + [OneWord(g[0]) + " " + Hundred];
      if g[1..] != "00" {
        GroupWordsGrows(ws', g[1..], last);
      }
    }
  }

  lemma {:induction false} WordsFromGrows(ws: seq<string>, gs: seq<string>, j: nat)
    requires ValidGroups(gs) && j <= |gs|
    ensures |WordsFrom(ws, gs, j)| >= |ws|
    decreases |gs| - j
  {
    if j < |gs| {
      GroupWordsGrows(ws, gs[j], j == |gs| - 1);
      WordsFromGrows(GroupAndScale(ws, gs, j), gs, j + 1);
    }
  }

  /** Nothing at all is spelled exactly for a string of at most three
      zeros (the empty string included): a longer string always gets at
      least the scale word of its first group, even when that group is
      "000". */
  lemma WordsEmptyIff(n: string)
    requires AllDigits(n) && |n| <= 33
    ensures WordList(n) == [] <==> |n| <= 3 && AllZeros(n)
    ensures |n| <= 3 && AllZeros(n) ==> Words(n) == ""
  {
    GroupsValid(n);
    PaddedShape(n);
    var gs := Groups(n);
    if |n| > 3 {
      assert |gs| >= 2;
      assert EmitsScale(gs, 0);
      WordsFromGrows(GroupAndScale([], gs, 0), gs, 1);
    } else if n != [] {
      assert gs == [n];
      GroupWordsGrows([], n, true);
      assert !EmitsScale(gs, 0);
      assert GroupAndScale([], gs, 0) == GroupWords([], n, true);
      assert WordsFrom([], gs, 0) == WordsFrom(GroupAndScale([], gs, 0), gs, 1);
    }
  }

  predicate NoZeroWord(ws: seq<string>) {
    forall i :: 0 <= i < |ws| ==> ws[i] != "zero"
  }

  /** A number below one hundred written without a leading zero is never
      spelled "zero". */
  lemma BelowHundredNotZero(s: string)
    requires 1 <= |s| <= 2 && AllDigits(s) && s[0] != '0'
    ensures BelowHundred(s) != "zero"
  {
    if |s| == 2 && s[0] != '1' {
      assert |Stem(s[0])| >= 3;
    }
  }

  lemma AddCommaNoZero(ws: seq<string>)
    requires ws != [] && NoZeroWord(ws)
    ensures NoZeroWord(AddComma(ws))
  {
    var w := ws[|ws| - 1] + ",";
    assert w[|w| - 1] == ',';
  }

  lemma {:induction false} GroupWordsNoZero(ws: seq<string>, g: string, last: bool)
    requires |g| <= 3 && AllDigits(g) && NoZeroWord(ws)
    ensures NoZeroWord(GroupWords(ws, g, last))
    decreases |g|
  {
    if g == [] {
    } else if g[0] == '0' {
      GroupWordsNoZero(ws, g[1..], last);
    } else if |g| <= 2 {
      if ws != [] {
        AddCommaNoZero(ws);
      }
      BelowHundredNotZero(g);
    } else {
      if ws != [] {
        AddCommaNoZero(ws);
      }
      var ws' := (if ws == [] then [] else AddComma(ws)) + [OneWord(g[0]) + " " + Hundred];
      if g[1..] != "00" {
        GroupWordsNoZero(ws', g[1..], last);
      }
    }
  }

  lemma {:induction false} WordsFromNoZero(ws: seq<string>, gs: seq<string>, j: nat)
    requires ValidGroups(gs) && j <= |gs| && NoZeroWord(ws)
    ensures NoZeroWord(WordsFrom(ws, gs, j))
    decreases |gs| - j
  {
    if j < |gs| {
      GroupWordsNoZero(ws, gs[j], j == |gs| - 1);
      WordsFromNoZero(GroupAndScale(ws, gs, j), gs, j + 1);
    }
  }

  /** Leading zeros are stripped before every group is spelled, so the word
      "zero" is never produced, not even for the number zero itself. */
  lemma ZeroNeverSpelled(n: string)
    requires AllDigits(n) && |n| <= 33
    ensures "zero" !in WordList(n)
  {
    GroupsValid(n);
    WordsFromNoZero([], Groups(n), 0);
  }
}
