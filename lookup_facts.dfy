/** Properties of the lookup: which strokes are rejected, when the next
    stroke starts with a space, and what the words and Roman branches do. */
module LookupFacts {
  import opened Text
  import opened Tables
  import opened DigitRendering
  import opened EnglishWords
  import opened Roman
  import opened NumberLookup

  /** A stroke `k` that fails from every state makes every lookup
      containing it fail, whatever comes before or after it. */
  lemma {:induction false} RunFailsAt(s: State, key: seq<string>, i: nat, k: string)
    requires i < |key| && key[i] == k
    requires forall t :: Step(t, k).Failure?
    ensures RunFrom(s, key).Failure?
    decreases i
  {
    var first := Step(s, key[0]);
    if i == 0 {
      assert first.Failure?;
    } else if first.Success? {
      assert key[1..][i - 1] == k;
      RunFailsAt(first.value, key[1..], i - 1, k);
    }
  }

  /** Every accepted stroke holds a digit or the number key `#`. */
  lemma PermittedMarker(k: string)
    requires Permitted(k)
    ensures exists i :: 0 <= i < |k| && (IsDigit(k[i]) || k[i] == '#')
  {
    if DigitsOf(k) == [] {
      assert k[0] == '#';
    }
  }

  /** A stroke with neither a digit nor a permitted digit-less form makes
      the lookup fail. */
  lemma LookupRejectsUnpermitted(key: seq<string>, i: nat)
    requires i < |key| && !Permitted(key[i])
    ensures LookupOf(key).Failure?
  {
    RunFailsAt(Start, key, i, key[i]);
  }

  /** The clock and ordinal branches rebuild the control keys from the
      whole stroke, so its digit or `#` is still there at the final check:
      both branches always fail. */
  lemma ClockAndOrdinalFail(s: State, k: string)
    requires BranchOf(LookupControl(k)) == Clock || BranchOf(LookupControl(k)) == Ordinal
    ensures Step(s, k) == Failure(KeyError)
  {
    if Permitted(k) {
      if BranchOf(LookupControl(k)) == Clock {
        ClockFails(Rendered(s, k), k);
      } else {
        OrdinalFails(Rendered(s, k), k);
      }
    }
  }

  /** The clock branch fails on any text the stroke's digits end. */
  lemma ClockFails(r: string, k: string)
    requires Permitted(k) && BranchOf(LookupControl(k)) == Clock
    ensures Decorate(r, k) == Failure(KeyError)
  {
    MarkerSurvives(k, "KBGS");
    assert Decorate(r, k) == Finish(r + ClockSuffix(LookupControl(k)), Without(k, "KBGS"), true);
  }

  /** So does the ordinal branch. */
  lemma OrdinalFails(r: string, k: string)
    requires Permitted(k) && BranchOf(LookupControl(k)) == Ordinal
    ensures Decorate(r, k) == Failure(KeyError)
  {
    MarkerSurvives(k, "WB");
    assert Decorate(r, k) == Finish(r + OrdinalSuffix(r), Without(k, "WB"), true);
  }

  /** Deleting letters from an accepted stroke leaves its digit or `#`,
      which the final check rejects. */
  lemma MarkerSurvives(k: string, drop: string)
    requires Permitted(k)
    requires forall i :: 0 <= i < |drop| ==> !IsDigit(drop[i]) && drop[i] != '#'
    ensures Without(Without(k, drop), "DZ*") != []
  {
    PermittedMarker(k);
    var i :| 0 <= i < |k| && (IsDigit(k[i]) || k[i] == '#');
    WithoutMember(k, drop, k[i]);
    WithoutMember(Without(k, drop), "DZ*", k[i]);
  }

  /** The clock suffix is a quarter hour followed by " a.m." or " p.m."
      exactly when S is pressed, " a.m." being chosen by `*`. The quarter
      is ":00" without K; with K it is ":45" for BG, otherwise ":15" for
      G, ":30" for B and ":00" for neither. */
  lemma ClockSuffixShape(control: string)
    ensures var r := ClockSuffix(control);
      && |r| >= 3 && r[..3] in {":00", ":15", ":30", ":45"}
      && ('K' !in control ==> r[..3] == ":00")
      && ('K' in control && Contains(control, "BG") ==> r[..3] == ":45")
      && ('K' in control && 'G' in control && !Contains(control, "BG") ==> r[..3] == ":15")
      && ('K' in control && 'G' !in control && 'B' in control ==> r[..3] == ":30")
      && ('K' in control && 'G' !in control && 'B' !in control ==> r[..3] == ":00")
      && ('S' !in control <==> |r| == 3)
      && ('S' in control ==> r[3..] == if '*' in control then " a.m." else " p.m.")
  {
    ContainsMember(control, "BG", 1);
  }

  /** The ordinal suffix is one of the four English ones: "th" in the
      teens and after a final character other than 1, 2 and 3; otherwise
      "st", "nd" or "rd" for a final 1, 2 or 3. */
  lemma OrdinalSuffixShape(r: string)
    ensures OrdinalSuffix(r) in {"st", "nd", "rd", "th"}
    ensures |r| >= 2 && r[|r| - 2] == '1' ==> OrdinalSuffix(r) == "th"
    ensures r == [] || r[|r| - 1] !in "123" ==> OrdinalSuffix(r) == "th"
    ensures r != [] && !(|r| >= 2 && r[|r| - 2] == '1') ==>
      && (r[|r| - 1] == '1' ==> OrdinalSuffix(r) == "st")
      && (r[|r| - 1] == '2' ==> OrdinalSuffix(r) == "nd")
      && (r[|r| - 1] == '3' ==> OrdinalSuffix(r) == "rd")
  {
  }

  /** Any lookup with a stroke that reaches the clock or ordinal branch
      fails. */
  lemma LookupRejectsClockAndOrdinal(key: seq<string>, i: nat)
    requires i < |key|
    requires BranchOf(LookupControl(key[i])) == Clock || BranchOf(LookupControl(key[i])) == Ordinal
    ensures LookupOf(key).Failure?
  {
    forall t | true
      ensures Step(t, key[i]).Failure?
    {
      ClockAndOrdinalFail(t, key[i]);
    }
    RunFailsAt(Start, key, i, key[i]);
  }

  /** A stroke that selects no decoration succeeds exactly when its control
      keys are all D, Z or `*`; the text then gains only the pending space,
      if any, and the stroke's digits, and no space is asked for. */
  lemma PlainStep(s: State, k: string)
    requires Permitted(k) && BranchOf(LookupControl(k)) == Plain
    ensures var c := LookupControl(k);
      Step(s, k).Success? <==> forall i :: 0 <= i < |c| ==> c[i] in "DZ*"
    ensures Step(s, k).Success? ==> Step(s, k).value == State(Rendered(s, k), false)
  {
    PlainDecorate(Rendered(s, k), k);
  }

  /** The same on any text the stroke's digits end. */
  lemma PlainDecorate(r: string, k: string)
    requires BranchOf(LookupControl(k)) == Plain
    ensures var c := LookupControl(k);
      Decorate(r, k).Success? <==> forall i :: 0 <= i < |c| ==> c[i] in "DZ*"
    ensures Decorate(r, k).Success? ==> Decorate(r, k).value == State(r, false)
  {
    var c := LookupControl(k);
    assert Decorate(r, k) == Finish(r, c, false);
    WithoutEmpty(c, "DZ*");
  }

  /** A stroke of digits alone is accepted, appends its rendering after
      the pending space, if any, and asks for no space. */
  lemma DigitStroke(s: State, k: string)
    requires k != [] && AllDigits(k)
    ensures Step(s, k) == Success(State(Rendered(s, k), false))
  {
    assert IsDigit(k[0]) && Permitted(k);
    DigitsOnlyControl(k);
    PlainDecorate(Rendered(s, k), k);
  }

  lemma DigitsOnlyControl(k: string)
    requires AllDigits(k)
    ensures LookupControl(k) == []
  {
    WithoutEmpty(k, "0123456789#-EU");
  }

  /** A stroke selects no decoration exactly when its control keys hold
      none of K, W, B, G and R and no "DZ": every other branch is chosen by
      one of those. */
  lemma BranchOfPlain(control: string)
    ensures BranchOf(control) == Plain <==>
      !Contains(control, "DZ") && 'K' !in control && 'W' !in control &&
      'B' !in control && 'G' !in control && 'R' !in control
  {
    ContainsFirst(control, "RB");
    ContainsFirst(control, "WR");
    ContainsFirst(control, "KR");
    ContainsFirst(control, "RG");
    ContainsFirst(control, "BG");
  }

  /** After a successful stroke the next one starts with a space exactly
      when its keys selected a branch other than plain digits, even one
      that found no digit run to change. */
  lemma NeedsSpaceIff(s: State, k: string)
    ensures Step(s, k).Success? ==>
      (Step(s, k).value.needsSpace <==> BranchOf(LookupControl(k)) != Plain)
  {
    if Permitted(k) {
      DecorateSpace(Rendered(s, k), k);
    }
  }

  lemma DecorateSpace(r: string, k: string)
    ensures Decorate(r, k).Success? ==>
      (Decorate(r, k).value.needsSpace <==> BranchOf(LookupControl(k)) != Plain)
  {
    var control := LookupControl(k);
    match BranchOf(control)
    case InWords =>
      assert Decorate(r, k) == Then(SpelledText(r), Without(control, "G"));
    case RomanNumeral =>
      assert Decorate(r, k) == Then(NumeralText(r, '*' in control), Without(control, "R"));
    case _ =>
  }

  /** Wrapping the trailing digit run keeps everything before it. */
  lemma WrapRunKeeps(p: string, d: string, pre: string, post: string)
    requires p != [] && !IsDigit(p[|p| - 1])
    ensures var t := WrapRun(p + d, pre, post); |t| >= |p| && t[..|p|] == p
  {
    TrailingDigitsWithin(p, d);
    var r := p + d;
    assert BeforeTrailingDigits(r)[..|p|] == p by {
      assert BeforeTrailingDigits(r) == r[..|r| - |TrailingDigits(r)|];
    }
  }

  /** The trailing run of `p + d` is the digit string `d` when `p` does
      not end with a digit, and `p` is what precedes it. */
  lemma RunOfAppend(p: string, d: string)
    requires p == [] || !IsDigit(p[|p| - 1])
    requires d != [] && AllDigits(d)
    ensures TrailingDigits(p + d) == d && BeforeTrailingDigits(p + d) == p
  {
    var r := p + d;
    if p == [] {
      assert r == d;
      TrailingDigitsAll(d);
    } else {
      TrailingDigitsWithin(p, d);
      assert forall i :: |p| <= i < |r| ==> IsDigit(r[i]) by {
        assert forall i :: |p| <= i < |r| ==> r[i] == d[i - |p|];
      }
      assert r[|p|..] == d;
    }
  }

  /** Wrapping the run `d` after a text `p` that does not end with a digit
      puts `pre` before it and `post` after it. */
  lemma WrapAppend(p: string, d: string, pre: string, post: string)
    requires p == [] || !IsDigit(p[|p| - 1])
    requires d != [] && AllDigits(d)
    ensures WrapRun(p + d, pre, post) == p + pre + d + post
  {
    RunOfAppend(p, d);
  }

  /** RB and WR on a text `p + d` ending with the digit run `d`: they
      succeed exactly when, once the chord is deleted, only D, Z or `*`
      are left, and then give `p + "$" + d` and ask for a space. */
  lemma DollarsWrap(p: string, d: string, k: string)
    requires p == [] || !IsDigit(p[|p| - 1])
    requires d != [] && AllDigits(d)
    requires BranchOf(LookupControl(k)).Dollars?
    ensures var c := LookupControl(k);
      Decorate(p + d, k) ==
        if Without(RemoveAll(c, BranchOf(c).pat), "DZ*") == [] then Success(State(p + "$" + d, true))
        else Failure(KeyError)
  {
    WrapAppend(p, d, "$", "");
    assert p + "$" + d + "" == p + "$" + d;
  }

  /** KR and RG: the same, giving `p + d + "%"`. */
  lemma PercentAppend(p: string, d: string, k: string)
    requires p == [] || !IsDigit(p[|p| - 1])
    requires d != [] && AllDigits(d)
    requires BranchOf(LookupControl(k)).Percent?
    ensures var c := LookupControl(k);
      Decorate(p + d, k) ==
        if Without(RemoveAll(c, BranchOf(c).pat), "DZ*") == [] then Success(State(p + d + "%", true))
        else Failure(KeyError)
  {
    WrapAppend(p, d, "", "%");
    assert p + "" + d + "%" == p + d + "%";
  }

  /** DZ: it succeeds exactly when only D, Z or `*` are among the control
      keys, and then gives `p + "$" + d + "00"`. */
  lemma DollarHundredsWrap(p: string, d: string, k: string)
    requires p == [] || !IsDigit(p[|p| - 1])
    requires d != [] && AllDigits(d)
    requires BranchOf(LookupControl(k)) == DollarHundreds
    ensures Decorate(p + d, k) ==
      if Without(LookupControl(k), "DZ*") == [] then Success(State(p + "$" + d + "00", true))
      else Failure(KeyError)
  {
    WrapAppend(p, d, "$", "00");
  }

  /** Replacing the trailing digit run keeps everything before it. */
  lemma ReplaceRunKeeps(p: string, d: string, text: string)
    requires p != [] && !IsDigit(p[|p| - 1])
    ensures var t := ReplaceRun(p + d, text); |t| >= |p| && t[..|p|] == p
  {
    TrailingDigitsWithin(p, d);
    var r := p + d;
    assert BeforeTrailingDigits(r)[..|p|] == p by {
      assert BeforeTrailingDigits(r) == r[..|r| - |TrailingDigits(r)|];
    }
  }

  /** Whatever branch a stroke takes, a successful stroke keeps the text
      up to a final non-digit: decorations only touch the trailing digit
      run. */
  lemma DecorateKeeps(p: string, d: string, k: string)
    requires p != [] && !IsDigit(p[|p| - 1])
    ensures Decorate(p + d, k).Success? ==>
      var t := Decorate(p + d, k).value.result;
      |t| >= |p| && t[..|p|] == p
  {
    var b := BranchOf(LookupControl(k));
    if b.Dollars? {
      WrapRunKeeps(p, d, "$", "");
    } else if b.Percent? {
      WrapRunKeeps(p, d, "", "%");
    } else if b == DollarHundreds {
      WrapRunKeeps(p, d, "$", "00");
    } else if b == InWords {
      assert !IsDigit((p + d)[|p| - 1]);
    } else if b == RomanNumeral {
      ReplaceRunKeeps(p, d, Numeral(Value(TrailingDigits(p + d)), '*' in LookupControl(k)));
      assert Decorate(p + d, k) == Then(NumeralText(p + d, '*' in LookupControl(k)), Without(LookupControl(k), "R"));
    } else if b == Plain {
      assert (p + d)[..|p|] == p;
    }
  }

  /** When a space is due, a successful stroke keeps the text so far and
      adds exactly one space after it, which is followed by the stroke's
      own text. */
  lemma SpaceKept(s: State, k: string)
    requires s.needsSpace
    ensures Step(s, k).Success? ==>
      var t := Step(s, k).value.result;
      |t| > |s.result| && t[..|s.result| + 1] == s.result + " "
  {
    DecorateKeeps(s.result + " ", Digits(k), k);
  }

  /** The words branch succeeds only on a text that is one nonempty digit
      string of at most 33 digits (so never after a space), and replaces
      the whole of it by its spelling. */
  lemma WordsBranch(s: State, k: string)
    requires BranchOf(LookupControl(k)) == InWords
    ensures Step(s, k).Success? ==>
      var r := Rendered(s, k);
      !s.needsSpace && r != [] && AllDigits(r) && |r| <= 33 &&
      Step(s, k).value == State(Words(r), true)
  {
    var r := Rendered(s, k);
    assert Decorate(r, k) == Then(SpelledText(r), Without(LookupControl(k), "G"));
    if s.needsSpace {
      assert r[|s.result|] == ' ';
    }
    SpelledWhole(r);
  }

  /** The words branch succeeds exactly when the text is a nonempty digit
      string of at most 33 digits and the keys left after G are all D, Z or
      `*`; it then yields the text's words and asks for a space. It fails
      with IndexError exactly on a digit string longer than 33 digits, and
      with KeyError otherwise. */
  lemma WordsSucceedIff(r: string, k: string)
    requires BranchOf(LookupControl(k)) == InWords
    ensures Decorate(r, k).Success? <==>
      r != [] && AllDigits(r) && |r| <= 33 && Without(Without(LookupControl(k), "G"), "DZ*") == []
    ensures Decorate(r, k).Success? ==> Decorate(r, k) == Success(State(Words(r), true))
    ensures Decorate(r, k).Failure? ==>
      (Decorate(r, k).error == IndexError <==> r != [] && AllDigits(r) && |r| > 33)
  {
    assert Decorate(r, k) == Then(SpelledText(r), Without(LookupControl(k), "G"));
    SpelledWhole(r);
  }

  /** A digit string is replaced as a whole. */
  lemma SpelledWhole(r: string)
    ensures SpelledText(r).Success? ==>
      r != [] && AllDigits(r) && |r| <= 33 && SpelledText(r).value == Words(r)
  {
    if r != [] && AllDigits(r) {
      TrailingDigitsAll(r);
      assert BeforeTrailingDigits(r) == [];
    }
  }

  /** Too many digits for the scale words end the lookup in IndexError. */
  lemma WordsOverflow(s: State, k: string)
    requires Permitted(k) && BranchOf(LookupControl(k)) == InWords
    requires AllDigits(Rendered(s, k)) && |Rendered(s, k)| > 33
    ensures Step(s, k) == Failure(IndexError)
  {
    WordsOverflowDecorate(Rendered(s, k), k);
  }

  lemma WordsOverflowDecorate(r: string, k: string)
    requires BranchOf(LookupControl(k)) == InWords
    requires AllDigits(r) && |r| > 33
    ensures Decorate(r, k) == Failure(IndexError)
  {
    assert SpelledText(r) == Failure(IndexError);
    assert Decorate(r, k) == Then(SpelledText(r), Without(LookupControl(k), "G"));
  }

  /** The Roman branch succeeds only when the text ends with a run of
      digits whose value is at most 3999; the run, and only the run, is
      replaced by its numeral, in lower case with `*`. */
  lemma RomanBranch(s: State, k: string)
    requires BranchOf(LookupControl(k)) == RomanNumeral
    ensures Step(s, k).Success? ==>
      var r := Rendered(s, k);
      var run := TrailingDigits(r);
      var before := r[..|r| - |run|];
      run != [] && Value(run) <= 3999 &&
      Step(s, k).value == State(before + Numeral(Value(run), '*' in LookupControl(k)), true)
  {
    if Permitted(k) {
      RomanDecorate(Rendered(s, k), k);
    }
  }

  /** The same on any text the stroke's digits end. */
  lemma RomanDecorate(r: string, k: string)
    requires BranchOf(LookupControl(k)) == RomanNumeral
    ensures Decorate(r, k).Success? ==>
      var run := TrailingDigits(r);
      run != [] && Value(run) <= 3999 &&
      Decorate(r, k).value == State(r[..|r| - |run|] + Numeral(Value(run), '*' in LookupControl(k)), true)
  {
    var lower := '*' in LookupControl(k);
    assert Decorate(r, k) == Then(NumeralText(r, lower), Without(LookupControl(k), "R"));
    ThenValue(NumeralText(r, lower), Without(LookupControl(k), "R"));
    NumeralReplacesRun(r, lower);
  }

  /** The Roman branch succeeds exactly when the text ends with a run of
      digits of value at most 3999 and the keys left after R are all D, Z
      or `*`; every failure is a KeyError. */
  lemma RomanSucceedsIff(r: string, k: string)
    requires BranchOf(LookupControl(k)) == RomanNumeral
    ensures var run := TrailingDigits(r);
      Decorate(r, k).Success? <==>
        run != [] && Value(run) <= 3999 && Without(Without(LookupControl(k), "R"), "DZ*") == []
    ensures Decorate(r, k).Failure? ==> Decorate(r, k).error == KeyError
  {
    assert Decorate(r, k) == Then(NumeralText(r, '*' in LookupControl(k)), Without(LookupControl(k), "R"));
  }

  /** R on a text of digits alone, with nothing but D, Z or `*` left
      after R, replaces the whole text by its numeral. */
  lemma RomanWhole(r: string, k: string)
    requires BranchOf(LookupControl(k)) == RomanNumeral
    requires r != [] && AllDigits(r) && Value(r) <= 3999
    requires Without(Without(LookupControl(k), "R"), "DZ*") == []
    ensures Decorate(r, k) == Success(State(Numeral(Value(r), '*' in LookupControl(k)), true))
  {
    var lower := '*' in LookupControl(k);
    NumeralWhole(r, lower);
    assert Decorate(r, k) == Then(NumeralText(r, lower), Without(LookupControl(k), "R"));
  }

  /** A branch that gets past its own failures ends with its text and
      asks for a space. */
  lemma ThenValue(t: Result<string>, control: string)
    ensures Then(t, control).Success? ==> t.Success? && Then(t, control).value == State(t.value, true)
  {
  }

  lemma NumeralReplacesRun(r: string, lower: bool)
    ensures NumeralText(r, lower).Success? ==>
      var run := TrailingDigits(r);
      run != [] && Value(run) <= 3999 &&
      NumeralText(r, lower).value == r[..|r| - |run|] + Numeral(Value(run), lower)
  {
    var run := TrailingDigits(r);
    if run != [] {
      assert BeforeTrailingDigits(r) == r[..|r| - |run|];
    }
  }

  /** A text of digits alone is replaced as a whole by its numeral. */
  lemma NumeralWhole(r: string, lower: bool)
    requires r != [] && AllDigits(r) && Value(r) <= 3999
    ensures NumeralText(r, lower) == Success(Numeral(Value(r), lower))
  {
    TrailingDigitsAll(r);
    var n := Numeral(Value(r), lower);
    assert BeforeTrailingDigits(r) + n == n;
  }

  /** R on a trailing run "0" deletes the run: the numeral for zero is
      empty, so the text before the run is left as it was. */
  lemma ZeroRunVanishes(p: string, k: string)
    requires p == [] || !IsDigit(p[|p| - 1])
    requires BranchOf(LookupControl(k)) == RomanNumeral
    requires Without(Without(LookupControl(k), "R"), "DZ*") == []
    ensures Decorate(p + "0", k) == Success(State(p, true))
  {
    var lower := '*' in LookupControl(k);
    ZeroNumeralText(p, lower);
    assert Decorate(p + "0", k) == Then(NumeralText(p + "0", lower), Without(LookupControl(k), "R"));
  }

  lemma ZeroNumeralText(p: string, lower: bool)
    requires p == [] || !IsDigit(p[|p| - 1])
    ensures NumeralText(p + "0", lower) == Success(p)
  {
    ZeroRunOf(p);
    ValueOfZero();
    NumeralOfZero(lower);
    ZeroRunReplaced(p);
  }

  /** The trailing run of a text that ends in a single digit 0 after a
      non-digit is that 0. */
  lemma ZeroRunOf(p: string)
    requires p == [] || !IsDigit(p[|p| - 1])
    ensures TrailingDigits(p + "0") == "0"
  {
    TrailingDigitsAppend(p, '0');
    assert p + "0" == p + ['0'];
    assert TrailingDigits(p) == [];
  }

  lemma ZeroRunReplaced(p: string)
    requires p == [] || !IsDigit(p[|p| - 1])
    ensures ReplaceRun(p + "0", "") == p
  {
    var r := p + "0";
    ZeroRunOf(p);
    assert r[..|r| - 1] == p;
    assert BeforeTrailingDigits(r) == p;
    assert ReplaceRun(r, "") == p + "";
    assert p + "" == p;
  }

  /** A digit put at the end extends the trailing run. */
  lemma TrailingDigitsAppend(p: string, c: char)
    requires IsDigit(c)
    ensures TrailingDigits(p + [c]) == TrailingDigits(p) + [c]
  {
    var r := p + [c];
    assert r[..|r| - 1] == p;
  }

  lemma ValueOfZero()
    ensures Value("0") == 0
  {
    assert "0"[..0] == [];
  }

  /** The numeral for zero is empty. */
  lemma NumeralOfZero(lower: bool)
    ensures Numeral(0, lower) == ""
  {
    assert Greedy(0, 0) == [];
  }

  /** So a stroke whose digits are "0" and that asks for R, pressed when a
      space is due, leaves that space at the end of the text: the lookup
      can return text that ends with a space. */
  lemma SpaceLeftAtEnd(s: State, k: string)
    requires s.needsSpace
    requires Permitted(k) && Digits(k) == "0"
    requires BranchOf(LookupControl(k)) == RomanNumeral
    requires Without(Without(LookupControl(k), "R"), "DZ*") == []
    ensures Step(s, k) == Success(State(s.result + " ", true))
  {
    var p := s.result + " ";
    assert p[|p| - 1] == ' ';
    ZeroRunVanishes(p, k);
    assert Rendered(s, k) == p + "0";
  }

  /** DZ asks for a space even when the text has no trailing digit run for
      it to decorate, for instance when `*` put a point after the digits:
      the text is left as it was. */
  lemma DollarHundredsWithoutRun(r: string, k: string)
    requires BranchOf(LookupControl(k)) == DollarHundreds
    requires TrailingDigits(r) == []
    requires Without(LookupControl(k), "DZ*") == []
    ensures Decorate(r, k) == Success(State(r, true))
  {
  }

  /** The run that R and the currency and percent branches work on is
      maximal: the text before it does not end with a digit. */
  lemma RunIsMaximal(r: string)
    ensures var before := BeforeTrailingDigits(r);
      before == [] || !IsDigit(before[|before| - 1])
  {
  }
}
