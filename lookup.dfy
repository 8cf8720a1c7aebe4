/** The dictionary lookup (`lookup`): a tuple of strokes is turned into text
    one stroke at a time. Each stroke must carry a digit or be one of the
    permitted digit-less strokes; its digits are appended (after a space
    when the previous stroke asked for one), and its control keys then pick
    at most one decoration of the text so far. A control key that no branch
    consumed, other than D, Z and `*`, rejects the whole lookup. */
module NumberLookup {
  import opened Text
  import opened Tables
  import opened DigitRendering
  import opened Roman
  import opened EnglishWords

  /** The exceptions a lookup can end in. */
  datatype Error = KeyError | IndexError

  datatype Result<T> = Success(value: T) | Failure(error: Error)

  /** What the lookup carries from one stroke to the next: the text so far
      and whether the next stroke starts with a space. */
  datatype State = State(result: string, needsSpace: bool)

  const Start := State("", false)

  /** A stroke is accepted when it carries a digit or is one of the
      permitted digit-less strokes. */
  predicate Permitted(stroke: string) {
    stroke in PermittedNonDigitStrokes || DigitsOf(stroke) != []
  }

  /** The control keys the lookup dispatches on: the stroke without digits,
      number key, hyphen, E and U. */
  function LookupControl(stroke: string): string {
    Without(stroke, "0123456789#-EU")
  }

  /** The text after the stroke's digits are appended. */
  function Rendered(s: State, stroke: string): string {
    (if s.needsSpace then s.result + " " else s.result) + Digits(stroke)
  }

  /** The decoration a stroke's control keys select, in the order the lookup
      checks for them. `pat` is the two-key chord that is then deleted. */
  datatype Branch =
    | Dollars(pat: string)
    | Percent(pat: string)
    | DollarHundreds
    | Clock
    | Ordinal
    | InWords
    | RomanNumeral
    | Plain

  /** Substring checks, first match wins. */
  function BranchOf(control: string): Branch {
    if Contains(control, "RB") then Dollars("RB")
    else if Contains(control, "WR") then Dollars("WR")
    else if Contains(control, "KR") then Percent("KR")
    else if Contains(control, "RG") then Percent("RG")
    else if Contains(control, "DZ") then DollarHundreds
    else if 'K' in control || Contains(control, "BG") then Clock
    else if 'W' in control || 'B' in control then Ordinal
    else if 'G' in control then InWords
    else if 'R' in control then RomanNumeral
    else Plain
  }

  /** A regular-expression substitution on the pattern `\d+$`: the
      trailing digit run, if there is one, is wrapped in `pre` and `post`. */
  function WrapRun(r: string, pre: string, post: string): string {
    var run := TrailingDigits(r);
    if run == [] then r else BeforeTrailingDigits(r) + pre + run + post
  }

  /** The same substitution with a fixed replacement: the trailing digit
      run, if there is one, is replaced by `text`. */
  function ReplaceRun(r: string, text: string): string {
    if TrailingDigits(r) == [] then r else BeforeTrailingDigits(r) + text
  }

  /** The clock branch's suffix: with K, ":45" for BG, ":15" for G, ":30"
      for B and ":00" otherwise; without K (BG alone) ":00". S then adds
      " a.m." with `*` and " p.m." without. */
  function ClockSuffix(control: string): string {
    var time :=
      if 'K' in control then
        if Contains(control, "BG") then ":45"
        else if 'G' in control then ":15"
        else if 'B' in control then ":30"
        else ":00"
      else ":00";
    var meridiem := if 'S' !in control then "" else if '*' in control then " a.m." else " p.m.";
    time + meridiem
  }

  /** The ordinal suffix for the text `r`: "st", "nd" and "rd" after a
      final 1, 2 and 3 unless the character before it is 1, "th"
      otherwise. */
  function OrdinalSuffix(r: string): string {
    var teen := |r| >= 2 && r[|r| - 2] == '1';
    if |r| >= 1 && r[|r| - 1] == '1' then (if teen then "th" else "st")
    else if |r| >= 1 && r[|r| - 1] == '2' then (if teen then "th" else "nd")
    else if |r| >= 1 && r[|r| - 1] == '3' then (if teen then "th" else "rd")
    else "th"
  }

  /** The final check of a stroke: once D, Z and `*` are deleted, no
      control key may be left. */
  function Finish(r: string, control: string, needsSpace: bool): Result<State> {
    if Without(control, "DZ*") != [] then Failure(KeyError) else Success(State(r, needsSpace))
  }

  /** The numeral that replaces a trailing run of value `value`. */
  function Numeral(value: nat, lower: bool): string {
    if lower then Lower(RomanOf(value)) else RomanOf(value)
  }

  /** One pass of the lookup loop, for the stroke `stroke`. */
  function Step(s: State, stroke: string): Result<State> {
    if !Permitted(stroke) then Failure(KeyError)
    else Decorate(Rendered(s, stroke), stroke)
  }

  /** The branch the stroke's control keys select, applied to the text `r`
      that already ends with the stroke's digits. */
  function Decorate(r: string, stroke: string): Result<State> {
    var control := LookupControl(stroke);
    match BranchOf(control)
    case Dollars(pat) => Finish(WrapRun(r, "$", ""), RemoveAll(control, pat), true)
    case Percent(pat) => Finish(WrapRun(r, "", "%"), RemoveAll(control, pat), true)
    case DollarHundreds => Finish(WrapRun(r, "$", "00"), control, true)
    case Clock => Finish(r + ClockSuffix(control), Without(stroke, "KBGS"), true)
    case Ordinal => Finish(r + OrdinalSuffix(r), Without(stroke, "WB"), true)
    case InWords => Then(SpelledText(r), Without(control, "G"))
    case RomanNumeral => Then(NumeralText(r, '*' in control), Without(control, "R"))
    case Plain => Finish(r, control, false)
  }

  /** A branch that may fail before the final check. */
  function Then(t: Result<string>, control: string): Result<State> {
    match t
    case Failure(e) => Failure(e)
    case Success(text) => Finish(text, control, true)
  }

  /** The words branch: the whole text must be a digit string, which is
      replaced by its spelling; more than 33 digits overrun the scale
      words (see `WordsFacts.ScaleLimit`). */
  function SpelledText(r: string): Result<string> {
    if r == [] || !AllDigits(r) then Failure(KeyError)
    else if |r| > 33 then Failure(IndexError)
    else Success(ReplaceRun(r, Words(r)))
  }

  /** The Roman branch: the trailing digit run, of value at most 3999, is
      replaced by its numeral, in lower case when `lower`. */
  function NumeralText(r: string, lower: bool): Result<string> {
    var run := TrailingDigits(r);
    if run == [] || Value(run) > 3999 then Failure(KeyError)
    else Success(ReplaceRun(r, Numeral(Value(run), lower)))
  }

  /** The state after the strokes `key`, starting from `s`; the first
      failing stroke ends the run. */
  function RunFrom(s: State, key: seq<string>): Result<State>
    decreases |key|
  {
    if key == [] then Success(s)
    else
      match Step(s, key[0])
      case Failure(e) => Failure(e)
      case Success(next) => RunFrom(next, key[1..])
  }

  /** What `lookup(key)` returns, or the exception it raises. */
  function LookupOf(key: seq<string>): Result<string> {
    match RunFrom(Start, key)
    case Failure(e) => Failure(e)
    case Success(s) => Success(s.result)
  }

  /** The body of the lookup loop for one stroke: check it, put the space
      that is due and the stroke's digits, then decorate. */
  method ApplyStroke(s: State, stroke: string) returns (res: Result<State>)
    ensures res == Step(s, stroke)
  {
    if stroke !in PermittedNonDigitStrokes && DigitsOf(stroke) == [] {
      return Failure(KeyError);
    }
    var result := s.result;
    if s.needsSpace {
      result := result + " ";
    }
    result := result + Digits(stroke);
    res := DecorateText(result, stroke);
  }

  /** The chain of control-key checks of the lookup loop and the final
      check, on the text `r` that ends with the stroke's digits. The first
      checks decorate the trailing digit run with a currency or percent
      sign. */
  method DecorateText(r: string, stroke: string) returns (res: Result<State>)
    ensures res == Decorate(r, stroke)
  {
    var control := Without(stroke, "0123456789#-EU");
    var result := r;
    if Contains(control, "RB") {
      assert BranchOf(control) == Dollars("RB");
      control := RemoveAll(control, "RB");
      result := WrapRun(result, "$", "");
    } else if Contains(control, "WR") {
      assert BranchOf(control) == Dollars("WR");
      control := RemoveAll(control, "WR");
      result := WrapRun(result, "$", "");
    } else if Contains(control, "KR") {
      assert BranchOf(control) == Percent("KR");
      control := RemoveAll(control, "KR");
      result := WrapRun(result, "", "%");
    } else if Contains(control, "RG") {
      assert BranchOf(control) == Percent("RG");
      control := RemoveAll(control, "RG");
      result := WrapRun(result, "", "%");
    } else if Contains(control, "DZ") {
      assert BranchOf(control) == DollarHundreds;
      result := WrapRun(result, "$", "00");
    } else {
      res := DecorateOther(r, stroke);
      return;
    }
    res := FinalCheck(result, control, true);
  }

  /** The rest of the chain: clock times, ordinals, words, Roman numerals
      and, when no check matches, the plain digits. */
  method DecorateOther(r: string, stroke: string) returns (res: Result<State>)
    requires !BranchOf(LookupControl(stroke)).Dollars?
    requires !BranchOf(LookupControl(stroke)).Percent?
    requires BranchOf(LookupControl(stroke)) != DollarHundreds
    ensures res == Decorate(r, stroke)
  {
    var control := Without(stroke, "0123456789#-EU");
    var result := r;
    var needsSpace := false;
    if 'K' in control || Contains(control, "BG") {
      assert BranchOf(control) == Clock;
      result := result + ClockSuffix(control);
      control := Without(stroke, "KBGS");
      needsSpace := true;
    } else if 'W' in control || 'B' in control {
      assert BranchOf(control) == Ordinal;
      needsSpace := true;
      control := Without(stroke, "WB");
      result := result + OrdinalSuffix(result);
    } else if 'G' in control {
      assert BranchOf(control) == InWords;
      var spelled := SpellText(result);
      if spelled.Failure? {
        return Failure(spelled.error);
      }
      control := Without(control, "G");
      needsSpace := true;
      result := spelled.value;
    } else if 'R' in control {
      assert BranchOf(control) == RomanNumeral;
      var numeral := NumeralFor(result, '*' in control);
      if numeral.Failure? {
        return Failure(numeral.error);
      }
      result := numeral.value;
      control := Without(control, "R");
      needsSpace := true;
    } else {
      assert BranchOf(control) == Plain;
    }
    res := FinalCheck(result, control, needsSpace);
  }

  /** The last lines of the lookup loop's body: D, Z and `*` are dropped
      and any control key still left is an error. */
  method FinalCheck(result: string, control0: string, needsSpace: bool) returns (res: Result<State>)
    ensures res == Finish(result, control0, needsSpace)
  {
    var control := Without(control0, "DZ*");
    if control != [] {
      return Failure(KeyError);
    }
    return Success(State(result, needsSpace));
  }

  /** The words branch: `.match` succeeds only on a text made of digits
      alone, `toWords` overruns its scale words past 33 digits, and the
      run is replaced by the words. */
  method SpellText(r: string) returns (res: Result<string>)
    ensures res == SpelledText(r)
  {
    if r == [] || !AllDigits(r) {
      return Failure(KeyError);
    }
    if |r| > 33 {
      return Failure(IndexError);
    }
    var words := ToWords(r);
    return Success(ReplaceRun(r, words));
  }

  /** The Roman branch: find the trailing run, reject a missing run or a
      value above 3999, and replace the run by its numeral. */
  method NumeralFor(r: string, lower: bool) returns (res: Result<string>)
    ensures res == NumeralText(r, lower)
  {
    var run := TrailingDigits(r);
    if run == [] {
      return Failure(KeyError);
    }
    var value := Value(run);
    if value > 3999 {
      return Failure(KeyError);
    }
    var roman := ToRoman(value);
    if lower {
      roman := Lower(roman);
    }
    return Success(ReplaceRun(r, roman));
  }

  /** `lookup`: feed the strokes through one at a time. */
  method Lookup(key: seq<string>) returns (r: Result<string>)
    ensures r == LookupOf(key)
  {
    var s := Start;
    for i := 0 to |key|
      invariant RunFrom(s, key[i..]) == RunFrom(Start, key)
    {
      var next := ApplyStroke(s, key[i]);
      assert key[i..][1..] == key[i + 1..];
      if next.Failure? {
        return Failure(next.error);
      }
      s := next.value;
    }
    assert key[|key|..] == [];
    return Success(s.result);
  }
}
