/** The constant tables of the number dictionary. */
module Tables {

  /** Strokes accepted although they carry no digit. */
  const PermittedNonDigitStrokes: set<string> :=
    {"#R", "#R*", "#-R", "#*R", "#W", "#-B", "#-G"}

  const RomanValues: seq<nat> :=
    [1000, 900, 500, 400, 100, 90, 50, 40, 10, 9, 5, 4, 1]

  const RomanSymbols: seq<string> :=
    ["M", "CM", "D", "CD", "C", "XC", "L", "XL", "X", "IX", "V", "IV", "I"]

  /** The plain word for digit `d`, the first entry of the one-digit table. */
  function OneWord(d: char): string {
    match d
    case '0' => "zero"
    case '1' => "one"
    case '2' => "two"
    case '3' => "three"
    case '4' => "four"
    case '5' => "five"
    case '6' => "six"
    case '7' => "seven"
    case '8' => "eight"
    case _ => "nine"
  }

  /** The second entry of the one-digit table where it has one (2 to 5), the
      stem used before "teen" and "ty"; the plain word for the other digits. */
  function Stem(d: char): string {
    match d
    case '2' => "twen"
    case '3' => "thir"
    case '4' => "for"
    case '5' => "fif"
    case _ => OneWord(d)
  }

  const TwoDigitWords: seq<string> := ["ten", "eleven", "twelve"]

  const Hundred: string := "hundred"

  const LargeSumWords: seq<string> :=
    ["thousand", "million", "billion", "trillion", "quadrillion",
     "quintillion", "sextillion", "septillion", "octillion", "nonillion"]
}
