/** The digits one stroke contributes (`digits`): its number keys in order,
    reversed by E or U, with "00" for Z, the last character repeated for D
    (both suppressed when "DZ" occurs), and a decimal point for `*`. */
module DigitRendering {
  import opened Text

  /** An E or U key reverses the digits. */
  predicate Reverses(val: string) {
    'E' in val || 'U' in val
  }

  /** The control keys `digits` looks at for Z and D: everything but the
      digits, with E and U taken out when present. */
  function ZdControl(val: string): string {
    var control := NonDigitsOf(val);
    if Reverses(val) then Without(Without(control, "E"), "U") else control
  }

  /** A `*` key without R or S adds a decimal point. */
  predicate AddsPoint(val: string) {
    '*' in val && 'R' !in val && 'S' !in val
  }

  /** The stroke's digits in the order `digits` puts them. */
  function Ordered(val: string): string {
    if Reverses(val) then Reverse(DigitsOf(val)) else DigitsOf(val)
  }

  /** A decimal point for `*` without R and S. */
  function Point(control: string): string {
    if '*' in control && 'R' !in control && 'S' !in control then "." else ""
  }

  /** The second half of `digits`: with `control` the control keys left
      after E and U, "00" for Z and the last character repeated for D (both
      unless "DZ" occurs), then a decimal point for `*` without R and S.
      A single character is deleted with `Without`, which is what
      `str.replace` does for a one-character pattern; each `+=` that a
      condition guards appends the empty string when the condition fails. */
  function Suffixed(result: string, control: string): string
    requires result != []
  {
    var zeroed := !Contains(control, "DZ") && 'Z' in control;
    var control2 := if zeroed then Without(control, "Z") else control;
    var zeros := if zeroed then "00" else "";
    var result2 := result + zeros;
    var doubled := if !Contains(control, "DZ") && 'D' in control2 then [result2[|result2| - 1]] else "";
    result + (zeros + doubled + Point(control2))
  }

  /** `digits(val)`: ",000" for the one stroke "0*Z", nothing for a stroke
      without digits, and otherwise the digits in the order E and U ask
      for, followed by what the remaining control keys add. E and U are
      not digits, so looking for them in the stroke is looking in its control
      keys. */
  function Digits(val: string): string {
    if val == "0*Z" then ",000"
    else if DigitsOf(val) == [] then ""
    else Suffixed(Ordered(val), ZdControl(val))
  }

  /** A control key other than E and U is seen by the Z, D and `*` checks
      exactly when the stroke has it. */
  lemma ZdControlMember(val: string, c: char)
    requires !IsDigit(c) && c != 'E' && c != 'U'
    ensures c in ZdControl(val) <==> c in val
  {
    NonDigitsMember(val, c);
    WithoutMember(NonDigitsOf(val), "E", c);
    WithoutMember(Without(NonDigitsOf(val), "E"), "U", c);
  }

  lemma ReverseDigits(s: string)
    requires AllDigits(s)
    ensures AllDigits(Reverse(s))
  {
  }

  lemma AllDigitsConcat(a: string, b: string)
    requires AllDigits(a) && AllDigits(b)
    ensures AllDigits(a + b)
  {
  }

  /** `Suffixed` is digits followed by the point, if any. */
  lemma SuffixedDigits(result: string, control: string) returns (body: string)
    requires result != [] && AllDigits(result)
    ensures AllDigits(body) && Suffixed(result, control) == body + Point(control)
  {
    var zeroed := !Contains(control, "DZ") && 'Z' in control;
    var control2 := if zeroed then Without(control, "Z") else control;
    PointWithoutZ(control);
    var zeros := if zeroed then "00" else "";
    var result2 := result + zeros;
    AllDigitsConcat(result, zeros);
    var doubled := if !Contains(control, "DZ") && 'D' in control2 then [result2[|result2| - 1]] else "";
    AllDigitsConcat(result2, doubled);
    Regroup(result, zeros, doubled, Point(control2));
    body := result2 + doubled;
  }

  lemma Regroup(a: string, b: string, c: string, d: string)
    ensures a + (b + c + d) == a + b + c + d
  {
  }

  /** Deleting Z does not change whether a point is added. */
  lemma PointWithoutZ(control: string)
    ensures Point(Without(control, "Z")) == Point(control)
  {
    WithoutMember(control, "Z", '*');
    WithoutMember(control, "Z", 'R');
    WithoutMember(control, "Z", 'S');
  }

  /** With "DZ", or with neither Z nor D, only the point is added. */
  lemma SuffixedPlain(result: string, control: string)
    requires result != []
    requires Contains(control, "DZ") || ('Z' !in control && 'D' !in control)
    ensures Suffixed(result, control) == result + Point(control)
  {
    assert result + ("" + "" + Point(control)) == result + Point(control);
  }

  /** Z without D adds "00". */
  lemma SuffixedZeros(result: string, control: string)
    requires result != []
    requires !Contains(control, "DZ") && 'Z' in control && 'D' !in control
    ensures Suffixed(result, control) == result + "00" + Point(control)
  {
    PointWithoutZ(control);
    WithoutMember(control, "Z", 'D');
    Regroup(result, "00", "", Point(control));
  }

  /** D without Z repeats the last digit. */
  lemma SuffixedDoubled(result: string, control: string)
    requires result != []
    requires !Contains(control, "DZ") && 'Z' !in control && 'D' in control
    ensures Suffixed(result, control) == result + [result[|result| - 1]] + Point(control)
  {
    var last := [(result + "")[|result| - 1]];
    assert last == [result[|result| - 1]];
    Regroup(result, "", last, Point(control));
  }

  /** Z and D together add "000": D repeats a zero of the "00". */
  lemma SuffixedZerosDoubled(result: string, control: string)
    requires result != []
    requires !Contains(control, "DZ") && 'Z' in control && 'D' in control
    ensures Suffixed(result, control) == result + "000" + Point(control)
  {
    PointWithoutZ(control);
    WithoutMember(control, "Z", 'D');
    var result2 := result + "00";
    assert [result2[|result2| - 1]] == "0";
    Regroup(result, "00", "0", Point(control));
    assert result + "00" + "0" == result + "000";
  }

  /** Whether a point is added can be read off the stroke itself. */
  lemma PointByKeys(val: string)
    ensures Point(ZdControl(val)) == if AddsPoint(val) then "." else ""
  {
    ZdControlMember(val, '*');
    ZdControlMember(val, 'R');
    ZdControlMember(val, 'S');
  }

  /** The rendering of a stroke with digits, apart from "0*Z", is its
      digits, in order or reversed, then what its keys add. */
  lemma DigitsByKeys(val: string)
    requires val != "0*Z" && DigitsOf(val) != []
    ensures var point := if AddsPoint(val) then "." else "";
      var o := Ordered(val);
      var suppressed := Contains(ZdControl(val), "DZ");
      && (suppressed || ('Z' !in val && 'D' !in val) ==> Digits(val) == o + point)
      && (!suppressed && 'Z' in val && 'D' !in val ==> Digits(val) == o + "00" + point)
      && (!suppressed && 'Z' !in val && 'D' in val ==> Digits(val) == o + [o[|o| - 1]] + point)
      && (!suppressed && 'Z' in val && 'D' in val ==> Digits(val) == o + "000" + point)
  {
    PointByKeys(val);
    ZdControlMember(val, 'Z');
    ZdControlMember(val, 'D');
    var o, c := Ordered(val), ZdControl(val);
    if Contains(c, "DZ") || ('Z' !in val && 'D' !in val) {
      SuffixedPlain(o, c);
    } else if 'Z' in val && 'D' !in val {
      SuffixedZeros(o, c);
    } else if 'Z' !in val {
      SuffixedDoubled(o, c);
    } else {
      SuffixedZerosDoubled(o, c);
    }
  }

  /** The digits of a stroke, in the order they are rendered, are digits. */
  lemma OrderedDigits(val: string)
    ensures AllDigits(Ordered(val)) && |Ordered(val)| == |DigitsOf(val)|
  {
    ReverseDigits(DigitsOf(val));
  }

  /** "0*Z" renders as ",000"; any other stroke without digits renders as
      nothing. */
  lemma DigitsEmpty(val: string)
    requires val == "0*Z" || DigitsOf(val) == []
    ensures Digits(val) == if val == "0*Z" then ",000" else ""
  {
  }

  /** With `*` and without R and S, the rendering is digits followed by a
      decimal point. */
  lemma DigitsWithPoint(val: string)
    requires val != "0*Z" && DigitsOf(val) != [] && AddsPoint(val)
    ensures var r := Digits(val);
      r[|r| - 1] == '.' && AllDigits(r[..|r| - 1])
  {
    var body := DigitsBody(val);
    PointByKeys(val);
    var r := Digits(val);
    assert r == body + ".";
    assert r[..|r| - 1] == body;
  }

  /** A stroke with digits renders as digits followed by its point, if it
      gets one. */
  lemma DigitsBody(val: string) returns (body: string)
    requires val != "0*Z" && DigitsOf(val) != []
    ensures AllDigits(body) && Digits(val) == body + Point(ZdControl(val))
  {
    OrderedDigits(val);
    body := SuffixedDigits(Ordered(val), ZdControl(val));
  }

  /** Otherwise the rendering is digits only. */
  lemma DigitsWithoutPoint(val: string)
    requires val != "0*Z" && !AddsPoint(val)
    ensures AllDigits(Digits(val))
  {
    if DigitsOf(val) != [] {
      var body := DigitsBody(val);
      PointByKeys(val);
      assert Digits(val) == body + "";
    }
  }

  /** A stroke without E, U, Z, D and `*` renders as its digits, in order. */
  lemma DigitsUnmodified(val: string)
    requires DigitsOf(val) != []
    requires 'E' !in val && 'U' !in val && 'Z' !in val && 'D' !in val && '*' !in val
    ensures Digits(val) == DigitsOf(val)
  {
    assert val != "0*Z" by {
      assert "0*Z"[1] == '*';
    }
    DigitsByKeys(val);
    assert Ordered(val) + "" == DigitsOf(val);
  }
}
