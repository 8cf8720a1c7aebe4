/** String helpers standing in for the Python built-ins and the regular
    expression the number dictionary uses: substring checks, replacement,
    character filtering, stripping leading zeros, reversal, reading a digit
    string as a number, lower-casing, joining with spaces, zero-filling and
    the run of digits at the end of a text. */
module Text {

  predicate IsDigit(c: char) {
    '0' <= c <= '9'
  }

  predicate AllDigits(s: string) {
    forall i :: 0 <= i < |s| ==> IsDigit(s[i])
  }

  /** Python's `pat in s` for strings: `pat` occurs as a contiguous substring. */
  predicate Contains(s: string, pat: string)
    decreases |s|
  {
    if |s| < |pat| then false
    else s[..|pat|] == pat || Contains(s[1..], pat)
  }

  /** A string that contains `pat` holds its first character. */
  lemma {:induction false} ContainsFirst(s: string, pat: string)
    requires pat != []
    ensures Contains(s, pat) ==> pat[0] in s
    decreases |s|
  {
    if |s| >= |pat| {
      if s[..|pat|] == pat {
        assert s[0] == pat[0];
      } else {
        ContainsFirst(s[1..], pat);
      }
    }
  }

  /** A string that contains `pat` holds each of its characters. */
  lemma {:induction false} ContainsMember(s: string, pat: string, i: nat)
    requires i < |pat|
    ensures Contains(s, pat) ==> pat[i] in s
    decreases |s|
  {
    if |s| >= |pat| {
      if s[..|pat|] == pat {
        assert s[i] == pat[i];
      } else {
        ContainsMember(s[1..], pat, i);
      }
    }
  }

  /** Between strings of the same length, containment is equality. */
  lemma ContainsSameLength(s: string, pat: string)
    requires |s| == |pat|
    ensures Contains(s, pat) <==> s == pat
  {
    if s != [] {
      assert s[..|pat|] == s;
    }
  }

  /** The characters of `s` that do not occur in `drop`, in order
      (a character filter over `s`). */
  function Without(s: string, drop: string): (r: string)
    ensures |r| <= |s|
  {
    if s == [] then []
    else (if s[0] in drop then [] else [s[0]]) + Without(s[1..], drop)
  }

  /** A character is deleted exactly when it is in `drop`. */
  lemma {:induction false} WithoutMember(s: string, drop: string, c: char)
    ensures c in Without(s, drop) <==> c in s && c !in drop
  {
    if s != [] {
      WithoutMember(s[1..], drop, c);
      assert s == [s[0]] + s[1..];
    }
  }

  /** Everything is deleted exactly when every character is in `drop`. */
  lemma {:induction false} WithoutEmpty(s: string, drop: string)
    ensures Without(s, drop) == [] <==> forall i :: 0 <= i < |s| ==> s[i] in drop
  {
    if s != [] {
      WithoutEmpty(s[1..], drop);
      assert forall i :: 1 <= i < |s| ==> s[i] == s[1..][i - 1];
    }
  }

  /** The digit characters of `s`, in order. */
  function DigitsOf(s: string): (r: string)
    ensures AllDigits(r) && |r| <= |s|
    ensures (exists i :: 0 <= i < |s| && IsDigit(s[i])) <==> r != []
  {
    if s == [] then []
    else (if IsDigit(s[0]) then [s[0]] else []) + DigitsOf(s[1..])
  }

  /** The characters of `s` that are not digits, in order. */
  function NonDigitsOf(s: string): (r: string)
    ensures |r| <= |s|
  {
    if s == [] then []
    else (if IsDigit(s[0]) then [] else [s[0]]) + NonDigitsOf(s[1..])
  }

  /** A character is kept exactly when it is not a digit. */
  lemma {:induction false} NonDigitsMember(s: string, c: char)
    ensures c in NonDigitsOf(s) <==> c in s && !IsDigit(c)
  {
    if s != [] {
      NonDigitsMember(s[1..], c);
      assert s == [s[0]] + s[1..];
    }
  }

  /** Python's `s.replace(pat, '')`: every non-overlapping occurrence of `pat`,
      scanning from the left, is deleted (an empty `pat` deletes nothing). */
  function RemoveAll(s: string, pat: string): (r: string)
    ensures |r| <= |s|
    ensures !Contains(s, pat) ==> r == s
    ensures pat != [] && Contains(s, pat) ==> |r| <= |s| - |pat|
    decreases |s|
  {
    if pat == [] || |s| < |pat| then s
    else if s[..|pat|] == pat then RemoveAll(s[|pat|..], pat)
    else [s[0]] + RemoveAll(s[1..], pat)
  }

  /** `s` backwards. */
  function Reverse(s: string): (r: string)
    ensures |r| == |s|
    ensures forall i :: 0 <= i < |s| ==> r[i] == s[|s| - 1 - i]
  {
    if s == [] then [] else Reverse(s[1..]) + [s[0]]
  }

  /** `s` without its leading zeros. */
  function StripZeros(s: string): (r: string)
    ensures |r| <= |s| && r == s[|s| - |r|..]
    ensures r == [] || r[0] != '0'
    ensures forall i :: 0 <= i < |s| - |r| ==> s[i] == '0'
  {
    if s != [] && s[0] == '0' then StripZeros(s[1..]) else s
  }

  /** The maximal run of digits at the end of `s`: what `\d+$` matches
      (the empty string when `s` does not end with a digit). */
  function TrailingDigits(s: string): (r: string)
    ensures |r| <= |s| && r == s[|s| - |r|..]
    ensures AllDigits(r)
    ensures |r| < |s| ==> !IsDigit(s[|s| - |r| - 1])
  {
    if s == [] || !IsDigit(s[|s| - 1]) then []
    else
      var t := TrailingDigits(s[..|s| - 1]);
      TrailingStep(s, t);
      t + [s[|s| - 1]]
  }

  /** A final digit extends the run of the text before it. */
  lemma TrailingStep(s: string, t: string)
    requires s != [] && IsDigit(s[|s| - 1])
    requires var p := s[..|s| - 1];
      |t| <= |p| && t == p[|p| - |t|..] && AllDigits(t) &&
      (|t| < |p| ==> !IsDigit(p[|p| - |t| - 1]))
    ensures var r := t + [s[|s| - 1]];
      |r| <= |s| && r == s[|s| - |r|..] && AllDigits(r) &&
      (|r| < |s| ==> !IsDigit(s[|s| - |r| - 1]))
  {
    var p := s[..|s| - 1];
    assert s[|s| - |t| - 1..] == p[|p| - |t|..] + [s[|s| - 1]];
  }

  /** A digit string is its own trailing digit run. */
  lemma {:induction false} TrailingDigitsAll(s: string)
    requires AllDigits(s)
    ensures TrailingDigits(s) == s
  {
    if s != [] {
      TrailingDigitsAll(s[..|s| - 1]);
      assert s[..|s| - 1] + [s[|s| - 1]] == s;
    }
  }

  /** The trailing digit run of `p + d` lies within `d` when `p` ends with
      a character that is not a digit. */
  lemma {:induction false} TrailingDigitsWithin(p: string, d: string)
    requires p != [] && !IsDigit(p[|p| - 1])
    ensures |TrailingDigits(p + d)| <= |d|
    decreases |d|
  {
    if d == [] {
      assert p + d == p;
    } else {
      var s := p + d;
      assert s[..|s| - 1] == p + d[..|d| - 1];
      TrailingDigitsWithin(p, d[..|d| - 1]);
    }
  }

  /** What precedes the trailing digit run. */
  function BeforeTrailingDigits(s: string): string {
    s[..|s| - |TrailingDigits(s)|]
  }

  /** The number a string of decimal digits denotes. */
  function Value(s: string): nat
    requires AllDigits(s)
  {
    if s == [] then 0
    else 10 * Value(s[..|s| - 1]) + (s[|s| - 1] as int - '0' as int)
  }

  /** Lower case for one character (ASCII letters only). */
  function LowerChar(c: char): char {
    if 'A' <= c <= 'Z' then (c as int - 'A' as int + 'a' as int) as char else c
  }

  /** Lower case for a string. */
  function Lower(s: string): (r: string)
    ensures |r| == |s|
    ensures forall i :: 0 <= i < |s| ==> r[i] == LowerChar(s[i])
  {
    if s == [] then [] else [LowerChar(s[0])] + Lower(s[1..])
  }

  /** The words separated by single spaces. */
  function JoinSpaced(ws: seq<string>): string {
    if ws == [] then ""
    else if |ws| == 1 then ws[0]
    else ws[0] + " " + JoinSpaced(ws[1..])
  }

  /** Zero-filling a string without a sign: zeros in front up to `width`
      characters. */
  function ZeroFill(s: string, width: nat): (r: string)
    ensures |r| == if width > |s| then width else |s|
  {
    if width <= |s| then s else seq(width - |s|, _ => '0') + s
  }

  /** Zero-filling keeps the string at the end and puts only zeros before it. */
  lemma ZeroFillShape(s: string, width: nat)
    ensures var r := ZeroFill(s, width);
      r[|r| - |s|..] == s && forall i :: 0 <= i < |r| - |s| ==> r[i] == '0'
  {
  }
}
