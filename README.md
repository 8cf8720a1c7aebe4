# Jeff's Numbers, modelled in Dafny

Jeff's Numbers is a stenography dictionary for Plover. It turns a short
tuple of strokes into the text of a number. Each stroke carries number keys
and letter keys. The number keys give digits. The letter keys can:

- reverse the digits (E, U);
- add "00" (Z);
- repeat the last digit (D);
- add a decimal point (`*`);
- decorate the text so far: dollars, percent, dollar hundreds, a clock
  time, an ordinal suffix, English words or a Roman numeral.

A lookup either returns the text or raises an error. The host treats an
error as "no entry".

The model covers the four functions of `jeff-numbers.py` and its tables:

- `lookup`: the stroke loop, with its space handling, decoration chain and
  final check on leftover keys;
- `digits`: how one stroke renders;
- `toRoman`: greedy subtractive Roman numerals;
- `toWords`: English words for a digit string.

The modules are:

- `Text`: string helpers for the built-ins used;
- `Tables`: the constant tables;
- `DigitRendering`: `digits`;
- `Roman`: `toRoman`;
- `EnglishWords`: `toWords`;
- `NumberLookup`: `lookup`;
- `WordsFacts` and `LookupFacts`: properties of the model;
- `RomanExamples`, `WordsExamples`, `DigitExamples` and `LookupExamples`:
  worked examples.

How the code becomes Dafny:

- `digits` is pure, so it is a function (`Digits`).
- The three loops are methods: `Lookup`, `ToRoman` and `ToWords`, with the
  helpers they call.
- Each method is proved equal to a specification function: `LookupOf`,
  `RomanOf` and `Words`.
- The lemmas state what those functions guarantee.
- An exception is a `Failure` carrying `KeyError` or `IndexError`.

## Model

| member | source | states |
|---|---|---|
| NumberLookup.Lookup | jeff-numbers.py:39-144 | Feeding the strokes through the loop returns exactly `LookupOf(key)`: the text after the last stroke, or the error of the first failing stroke. |
| NumberLookup.ApplyStroke | jeff-numbers.py:44-51 | One pass of the loop body equals `Step`. A stroke with no digit that is not a permitted digit-less stroke raises KeyError. Otherwise the pending space and the stroke's digits are appended before decorating. |
| NumberLookup.DecorateText | jeff-numbers.py:52-72 | The control-key chain equals `Decorate`. RB and WR wrap the trailing digit run as `$run` and KR and RG as `run%`, each deleting its chord. DZ gives `$run00`. Each of these asks for a space. DollarsWrap, PercentAppend and DollarHundredsWrap state the results exactly. |
| NumberLookup.DecorateOther | jeff-numbers.py:73-142 | The rest of the chain equals `Decorate`: clock, ordinal, words, Roman numeral, or no decoration and no space. |
| NumberLookup.BranchOf | jeff-numbers.py:54-139 | The branch the control keys select, first match winning. BranchOfPlain states when no branch is selected. |
| NumberLookup.ClockSuffix | jeff-numbers.py:74-90 | The clock suffix. ClockSuffixShape states its form. |
| NumberLookup.OrdinalSuffix | jeff-numbers.py:97-113 | The ordinal suffix. OrdinalSuffixShape states its form. |
| NumberLookup.FinalCheck | jeff-numbers.py:140-142 | A KeyError exactly when keys other than D, Z and `*` are left; otherwise the text and the space flag. |
| NumberLookup.SpellText | jeff-numbers.py:114-121 | Equals `SpelledText`. KeyError unless the whole text is a nonempty digit string, IndexError past 33 digits, otherwise the digits are replaced by their words. |
| NumberLookup.NumeralFor | jeff-numbers.py:122-135 | Equals `NumeralText`. KeyError without a trailing run or for a value above 3999. Otherwise the run is replaced by its numeral, lower-cased with `*`. |
| LookupFacts.LookupRejectsUnpermitted | jeff-numbers.py:44-45 | A lookup containing a stroke with no digit that is not one of the seven permitted digit-less strokes fails, wherever that stroke is. |
| LookupFacts.RunFailsAt | jeff-numbers.py:43-45 | A stroke that fails from every state makes every run containing it fail. |
| LookupFacts.ClockAndOrdinalFail | jeff-numbers.py:73-113 | A stroke that selects the clock or ordinal branch always raises KeyError. |
| LookupFacts.ClockFails | jeff-numbers.py:92 | The clock branch rebuilds its leftover keys from the whole stroke, so the stroke's digit or `#` reaches the final check. |
| LookupFacts.OrdinalFails | jeff-numbers.py:96 | The same for the ordinal branch. |
| LookupFacts.MarkerSurvives | jeff-numbers.py:140-142 | Deleting letters from a permitted stroke leaves a digit or `#` that the final check rejects. |
| LookupFacts.PermittedMarker | jeff-numbers.py:27-45 | Every permitted stroke holds a digit or `#`. |
| LookupFacts.LookupRejectsClockAndOrdinal | jeff-numbers.py:73-113 | A lookup with a stroke that reaches the clock or ordinal branch fails. |
| LookupFacts.ClockSuffixShape | jeff-numbers.py:73-90 | The clock suffix starts with a quarter hour. Without K it is ":00". With K it is ":45" when BG is pressed, else ":15" with G, else ":30" with B, else ":00". " a.m." or " p.m." follows exactly when S is pressed, with " a.m." chosen by `*`. |
| LookupFacts.OrdinalSuffixShape | jeff-numbers.py:97-113 | The suffix is one of st, nd, rd and th. It is "th" in the teens and after a final digit other than 1, 2 and 3. Outside the teens a final 1, 2 or 3 gives st, nd or rd. |
| LookupFacts.PlainStep | jeff-numbers.py:140-142 | A stroke that selects no decoration succeeds iff all its control keys are D, Z or `*`. The text then gains only the pending space, if any, and the stroke's digits, and no space is asked for. |
| LookupFacts.PlainDecorate | jeff-numbers.py:140-142 | The same on any text. |
| LookupFacts.DigitStroke | jeff-numbers.py:43-51 | A stroke of digits alone is accepted, its rendering is appended after the pending space, if any, and no space is asked for. |
| LookupFacts.DigitsOnlyControl | jeff-numbers.py:52 | A stroke of digits alone has no control keys. |
| LookupFacts.NeedsSpaceIff | jeff-numbers.py:47-138 | After a successful stroke, the next stroke starts with a space iff the stroke's keys select a branch other than plain digits, even when that branch finds no digit run to change. |
| LookupFacts.DecorateSpace | jeff-numbers.py:54-138 | The same on any text. |
| LookupFacts.BranchOfPlain | jeff-numbers.py:54-139 | A stroke selects no decoration iff its control keys hold none of K, W, B, G and R and no "DZ". |
| LookupFacts.DollarHundredsWithoutRun | jeff-numbers.py:70-72 | DZ on a text without a trailing digit run leaves the text as it is, yet still asks for a space. |
| LookupFacts.DecorateKeeps | jeff-numbers.py:54-138 | Every decoration keeps the text up to its last non-digit, because only the trailing digit run is touched. |
| LookupFacts.WrapRunKeeps | jeff-numbers.py:56 | The currency and percent substitution keeps the text before the trailing digit run. |
| LookupFacts.RunOfAppend | jeff-numbers.py:56 | After a text that is empty or ends in a non-digit, a nonempty digit string appended is exactly the trailing run the substitution finds, and the text before it is kept. |
| LookupFacts.WrapAppend | jeff-numbers.py:56 | Wrapping the trailing run of `p + d` gives `p + pre + d + post`. |
| LookupFacts.DollarsWrap | jeff-numbers.py:54-64 | Under RB or WR, `p + d` succeeds exactly when no key but D, Z and `*` is left of the control keys once the chord is deleted, and then gives `p + "$" + d` and asks for a space; otherwise KeyError. |
| LookupFacts.PercentAppend | jeff-numbers.py:62-69 | Under KR or RG, `p + d` becomes `p + d + "%"` and asks for a space on the same condition; otherwise KeyError. |
| LookupFacts.DollarHundredsWrap | jeff-numbers.py:70-72 | Under DZ, `p + d` succeeds exactly when no key but D, Z and `*` is pressed, and then gives `p + "$" + d + "00"`; otherwise KeyError. |
| LookupFacts.ReplaceRunKeeps | jeff-numbers.py:135 | The numeral substitution keeps the text before the trailing digit run. |
| LookupFacts.SpaceKept | jeff-numbers.py:47-49 | When a space is due, a successful stroke keeps the text so far followed by exactly one space. |
| LookupFacts.WordsBranch | jeff-numbers.py:114-121 | G succeeds only when the whole text is a digit string of 1 to 33 digits, so never after a space, and the result is exactly its words. |
| LookupFacts.SpelledWhole | jeff-numbers.py:115-121 | A successful words substitution replaces the entire text. |
| LookupFacts.WordsOverflow | jeff-numbers.py:120 | More than 33 digits under G end the lookup in IndexError. |
| LookupFacts.WordsOverflowDecorate | jeff-numbers.py:279-280 | The same on any text: the scale-word table runs out. |
| LookupFacts.WordsSucceedIff | jeff-numbers.py:114-121 | G succeeds iff the text is a nonempty digit string of at most 33 digits and only D, Z or `*` are left after G. It then yields the text's words and asks for a space. It fails with IndexError iff the text is a digit string longer than 33 digits, and with KeyError otherwise. |
| LookupFacts.RomanBranch | jeff-numbers.py:122-138 | R succeeds only on a trailing run of value at most 3999. The run, and only the run, is replaced by its numeral (lower case with `*`), and a space is asked for. |
| LookupFacts.RomanDecorate | jeff-numbers.py:122-138 | The same on any text. |
| LookupFacts.RomanSucceedsIff | jeff-numbers.py:122-142 | R succeeds iff the text ends with a digit run of value at most 3999 and only D, Z or `*` are left after R. Every failure is a KeyError. |
| LookupFacts.RomanWhole | jeff-numbers.py:122-138 | R on a text of digits alone, with only D, Z or `*` left after R, replaces the whole text by its numeral and asks for a space. |
| LookupFacts.NumeralReplacesRun | jeff-numbers.py:123-135 | A successful numeral substitution equals the text before the run followed by the numeral. |
| LookupFacts.NumeralWhole | jeff-numbers.py:123-135 | A text of digits alone of value at most 3999 is replaced as a whole by its numeral. |
| LookupFacts.ZeroRunVanishes | jeff-numbers.py:122-138 | R on a final run "0" deletes the run, because the numeral for 0 is empty. |
| LookupFacts.SpaceLeftAtEnd | jeff-numbers.py:122-138 | So a "0" stroke with R, pressed while a space is due, leaves that space at the end of the text. |
| LookupFacts.RunIsMaximal | jeff-numbers.py:26 | The text before the trailing run does not end in a digit. |
| LookupExamples.Percent123 | jeff-numbers.py:62-65 | `lookup(("12", "3KR"))` is "123%": the percent sign goes after the whole run, including earlier strokes' digits. |
| LookupExamples.TrailingSpace | jeff-numbers.py:122-144 | `lookup(("1KR", "0R"))` is "1% ", which ends with a space. |
| LookupExamples.WordsTwelve | jeff-numbers.py:114-121 | `lookup(("1", "2G"))` is "twelve". |
| LookupExamples.DollarsTwelve | jeff-numbers.py:54-56 | `lookup(("12RB",))` is "$12". |
| LookupExamples.DollarHundredsFive | jeff-numbers.py:70-72 | `lookup(("5DZ",))` is "$500". |
| LookupExamples.RomanTwelve | jeff-numbers.py:122-138 | `lookup(("12*R",))` is "xii". |
| LookupExamples.ClockMinutes | jeff-numbers.py:74-84 | KBG gives ":45", KG ":15", BG without K ":00". |
| LookupExamples.ClockMeridiem | jeff-numbers.py:86-90 | KBS* gives ":30 a.m.", KS ":00 p.m.". |
| LookupExamples.OrdinalSuffixes | jeff-numbers.py:97-113 | 1st, 22nd, 103rd, 11th, 112th, 40th. |
| LookupExamples.PointThenDollarHundreds | jeff-numbers.py:70-72 | "5DZ*" renders as "5.", which DZ leaves unchanged, but the next stroke starts with a space. |
| LookupExamples.PlainDigits | jeff-numbers.py:140-144 | A stroke "12" gives the text "12" and asks for no space. |
| DigitRendering.Digits | jeff-numbers.py:147-173 | The rendering of one stroke. Its properties are stated by DigitsByKeys, DigitsEmpty, DigitsBody, DigitsWithPoint and DigitsWithoutPoint. |
| DigitRendering.DigitsByKeys | jeff-numbers.py:147-173 | A stroke with digits, other than "0*Z", renders as its digits (reversed with E or U), then by case: nothing, "00" for Z, the last digit again for D, or "000" for Z and D (nothing when DZ occurs), then "." for `*` without R and S. |
| DigitRendering.DigitsEmpty | jeff-numbers.py:151-155 | "0*Z" renders as ",000", and a stroke without digits as nothing. |
| DigitRendering.DigitsBody | jeff-numbers.py:157-171 | A stroke with digits renders as a digit string followed by its point, if any. |
| DigitRendering.DigitsWithPoint | jeff-numbers.py:170-171 | With `*` and without R and S the rendering is digits followed by ".". |
| DigitRendering.DigitsWithoutPoint | jeff-numbers.py:170-171 | Otherwise, apart from "0*Z", the rendering is digits only. |
| DigitRendering.DigitsUnmodified | jeff-numbers.py:147-173 | A stroke without E, U, Z, D and `*` renders as its digits, in order. |
| DigitRendering.PointByKeys | jeff-numbers.py:170-171 | Whether a point is added can be read off the stroke itself. |
| DigitRendering.ZdControlMember | jeff-numbers.py:149-159 | A control key other than E and U is seen by the Z, D and `*` checks exactly when the stroke has it. |
| DigitRendering.OrderedDigits | jeff-numbers.py:157-160 | The digits, in rendering order, are all the stroke's digits. |
| DigitRendering.SuffixedDigits | jeff-numbers.py:162-171 | What the Z, D and `*` stage produces is digits followed by the point. |
| DigitRendering.SuffixedZerosDoubled | jeff-numbers.py:162-168 | Z with D adds "000": D repeats a zero of the "00". |
| DigitExamples.Reversed | jeff-numbers.py:157-160 | "12E" renders as "21". |
| DigitExamples.Zeros | jeff-numbers.py:163-165 | "5Z" renders as "500". |
| DigitExamples.Doubled | jeff-numbers.py:167-168 | "5D" renders as "55". |
| DigitExamples.DoubledZerosCancel | jeff-numbers.py:162 | "5DZ" renders as "5". |
| DigitExamples.PointAdded | jeff-numbers.py:170-171 | "5*" renders as "5.". |
| DigitExamples.PointSuppressed | jeff-numbers.py:170 | "5*R" renders as "5". |
| Roman.Greedy | jeff-numbers.py:193-197 | The table indices the loops emit from entry `i` on. GreedySum, GreedyChoosesLargest and GreedyInTableOrder state their properties. |
| Roman.RomanOf | jeff-numbers.py:190-198 | The numeral for a number. RomanOfDecomposes states its properties. |
| Roman.ToRoman | jeff-numbers.py:190-198 | The numeral built by the nested loops is `RomanOf(num)`, the greedy encoding. |
| Roman.EmitEntry | jeff-numbers.py:194-196 | Emitting entry `i` as often as it fits leaves a remainder below its value. It extends the text by exactly what the greedy encoding emits for that entry. |
| Roman.GreedySum | jeff-numbers.py:193-197 | The symbols emitted add up to the number. |
| Roman.GreedyChoosesLargest | jeff-numbers.py:193-197 | Every symbol emitted has the largest table value that fits into the remainder left once the symbols before it are taken off. |
| Roman.RomanChoosesLargest | jeff-numbers.py:190-198 | The same for every symbol of the numeral for a number. |
| Roman.GreedyInTableOrder | jeff-numbers.py:193-197 | Symbols come out in table order. |
| Roman.RomanOfDecomposes | jeff-numbers.py:176-198 | The numeral spells table symbols, in non-increasing value order, that add up to the number. |
| Roman.SkipLarger | jeff-numbers.py:193-197 | Table entries larger than the remainder are passed over. |
| RomanExamples.Roman1994 | jeff-numbers.py:190-198 | 1994 is "MCMXCIV". |
| RomanExamples.RomanSmall | jeff-numbers.py:190-198 | 0 is the empty numeral and 4 is "IV". |
| RomanExamples.Roman12 | jeff-numbers.py:190-198 | 12 is "XII". |
| EnglishWords.ToWords | jeff-numbers.py:222-283 | For a digit string of at most 33 digits the result is `Words(n)`: padded, cut into groups, spelled and joined with spaces. |
| EnglishWords.SpellGroups | jeff-numbers.py:229-281 | The group loop, with its `skip` flag, yields `WordsFrom`. A group gets its scale word when it is not last and is either the first group or not "000". |
| EnglishWords.SpellGroup | jeff-numbers.py:235-277 | The per-group loop that strips leading zeros yields `GroupWords`. |
| EnglishWords.TwoDigitWord | jeff-numbers.py:254-264 | Two digits with a nonzero tens digit give the reference word: ten to nineteen when the tens digit is 1, otherwise twenty to ninety followed, unless the unit is zero, by a hyphen and the unit's word. |
| EnglishWords.JoinBelowHundred | jeff-numbers.py:238-242 | Before a word below one hundred comes "and" (after a hundred or in the last group), or a comma on a preceding scale word. JoinedComma states the comma case. |
| WordsFacts.ScaleWordsNoHundred | jeff-numbers.py:218-219 | No scale word contains "hundred", so after a scale word "and" is added only in the last group. |
| WordsFacts.JoinedComma | jeff-numbers.py:241-242 | Outside the last group, after a scale word, the words gain a comma on that word and nothing else. The two-digit case at jeff-numbers.py:252-253 goes through the same `Joined`. |
| WordsFacts.ScaleLimit | jeff-numbers.py:280 | There are ten scale words. A string has at most eleven groups exactly when it has at most 33 digits. Past 33 digits the first group is followed by a scale word whose index is past the table. |
| EnglishWords.GroupWordsStripped | jeff-numbers.py:236 | Leading zeros do not change how a group is spelled. |
| EnglishWords.Padded | jeff-numbers.py:225-226 | The zero-filled string. PaddedShape states its form. |
| EnglishWords.Chunks | jeff-numbers.py:228 | There are as many groups as the length divided by three, rounded up. ChunksShape and ChunksConcat state the rest. |
| EnglishWords.Teen | jeff-numbers.py:254-261 | The words ten to nineteen, built from stems. TeenByTable checks all ten against the written-out words. |
| EnglishWords.Tens | jeff-numbers.py:262-264 | The words twenty to ninety-nine, built from stems. TensByTable checks all of them against the written-out tens words. |
| EnglishWords.TeenByTable | jeff-numbers.py:254-261 | For every units digit, the teen word is the written-out word from "ten" to "nineteen". |
| EnglishWords.TensByTable | jeff-numbers.py:262-264 | For every tens digit from 2 to 9 and every unit, the word is the written-out tens word from "twenty" to "ninety", then a hyphen and the unit's word unless the unit is zero. |
| EnglishWords.BelowHundredByTable | jeff-numbers.py:254-264 | Every two-digit number without a leading zero is spelled as the written-out tables say. |
| EnglishWords.ChunksShape | jeff-numbers.py:228 | Each group has 1 to 3 characters, and the groups of a digit string are digits. |
| EnglishWords.GroupsValid | jeff-numbers.py:225-228 | Up to 33 digits give digit groups of at most three, no more than the scale words can name. |
| WordsFacts.ChunksConcat | jeff-numbers.py:228 | The groups read in order give back the string, and all but the last have three characters. |
| WordsFacts.PaddedShape | jeff-numbers.py:225-226 | Up to three digits are left alone. Longer strings get fewer than three leading zeros, making the length a multiple of three. |
| WordsFacts.LeadingZerosValue | jeff-numbers.py:226 | Leading zeros do not change a digit string's value. |
| WordsFacts.GroupsReadBack | jeff-numbers.py:225-228 | The groups are the digits with leading zeros, and they have the same value. |
| WordsFacts.GroupWordsGrows | jeff-numbers.py:235-277 | Spelling a group never removes a word. It leaves the words unchanged iff the group is all zeros. |
| WordsFacts.WordsEmptyIff | jeff-numbers.py:222-283 | Nothing is spelled iff the string is at most three zeros, the empty string included. |
| WordsFacts.ZeroNeverSpelled | jeff-numbers.py:236-245 | The word "zero" is never produced. |
| WordsFacts.BelowHundredNotZero | jeff-numbers.py:243-264 | A number from 1 to 99 is never spelled "zero". |
| WordsExamples.StemWords | jeff-numbers.py:254-264 | eleven, thirteen, fifteen, eighteen, forty, eighty, twenty-three. |
| WordsExamples.SixDigitGroups | jeff-numbers.py:225-228 | Six digits are not padded and make two groups of three. |
| WordsExamples.HundredsGroup | jeff-numbers.py:270-277 | "123" as the last group is "one hundred", "and", "twenty-three". |
| WordsExamples.Fifteen | jeff-numbers.py:222-283 | `toWords("15")` is "fifteen". |
| WordsExamples.Twelve | jeff-numbers.py:222-283 | `toWords("12")` is "twelve". |
| WordsExamples.OneHundred | jeff-numbers.py:270-277 | `toWords("100")` is "one hundred". |
| WordsExamples.MillionThousandAndOne | jeff-numbers.py:222-283 | `toWords("1001001")` is "one million, one thousand and one". |
| WordsExamples.ThousandAndOne | jeff-numbers.py:222-283 | `toWords("1001")` is "one thousand and one". |
| WordsExamples.OneMillion | jeff-numbers.py:279-281 | `toWords("1000000")` is "one million". |
| WordsExamples.LeadingZeroGroup | jeff-numbers.py:279-281 | `toWords("000001")` is "thousand and one": a first group of "000" still gets its scale word. |
| WordsExamples.SixDigits | jeff-numbers.py:222-283 | The words for "123456" are one hundred, and, twenty-three, thousand, (with a comma), four hundred, and, fifty-six. |
| Text.Contains | jeff-numbers.py:54-70 | The substring test. ContainsSameLength and ContainsFirst state its properties. |
| Text.ContainsFirst | jeff-numbers.py:54-66 | A string containing a chord holds its first key. |
| Text.RemoveAll | jeff-numbers.py:55-67 | Deleting every occurrence of a chord never lengthens the text, and leaves a text without the chord unchanged. A text holding a nonempty chord shrinks by at least the chord's length. |
| Text.ContainsMember | jeff-numbers.py:54-75 | A string that contains a chord holds each of its keys. |
| Text.TrailingDigits | jeff-numbers.py:26 | The run is a digit suffix of the text, and the character before it is not a digit. |
| Text.StripZeros | jeff-numbers.py:236 | The result is a suffix without a leading zero, and everything stripped was a zero. |
| Text.Reverse | jeff-numbers.py:160 | The string in the opposite order. |
| Text.Lower | jeff-numbers.py:134 | Lower case, character by character. |

## Behaviour of the code as written

The model follows the code. In these places the code does something other
than its comments or a natural reading suggest:

- Clock and ordinal strokes never succeed. Those two branches rebuild the
  leftover keys from the whole stroke (`jeff-numbers.py:92`, `:96`). That
  keeps the stroke's digits, or `#`, which the final check rejects
  (`ClockAndOrdinalFail`). The suffix helpers are still modelled and proved
  on their own.
- In the clock branch, S with `*` gives " a.m." and S alone " p.m.". The
  header comment at `jeff-numbers.py:14` says the opposite.
- `toWords("0")` is the empty string, not "zero" (`ZeroNeverSpelled`).
- A six-digit string whose first group is "000" still spells that group's
  scale word (`LeadingZeroGroup`).
- G needs the whole text to be digits, not only a trailing run. The match
  is anchored at the start of the text (`WordsBranch`, `WordsSucceedIff`).
- DZ asks for a space even when it has no digit run to decorate. For
  "5DZ*", `*` renders the point, so the text is "5.". The substitution
  changes nothing, yet the next stroke starts with a space
  (`PointThenDollarHundreds`).
- R accepts a run of value 0 and replaces it with nothing. A lookup can
  therefore end in a space (`TrailingSpace`).
- The control keys `lookup` dispatches on drop digits, `#`, `-`, E and U
  (`jeff-numbers.py:52`). The keys `digits` looks at drop only digits
  (`jeff-numbers.py:149`). Both are modelled as written.

## Left out

- Plover integration and `LONGEST_KEY` are left out: they matter only to
  the host.
- The regular-expression engine is left out. The pattern for a run of
  digits at the end of the text is modelled by `Text.TrailingDigits`, and a
  digit means an ASCII digit.
- `str.strip` in the final join of `toWords` is not modelled. No word it
  produces has surrounding white space, so the strip changes nothing.
- EnglishWords.ToWords: requires at most 33 digits. Beyond that the source
  raises IndexError indexing the scale words (`WordsFacts.ScaleLimit`
  derives the bound from the ten scale words). The lookup models that as
  `Failure(IndexError)` in `SpelledText`.
- EnglishWords.SpellGroup: omits the branch at `jeff-numbers.py:266-268`.
  After leading zeros are stripped, a two-digit remainder never starts
  with "0", so the branch is dead.
- NumberLookup.NumeralFor: omits the `value < 0` check, because a digit run
  is never negative.
- The source has no Roman-numeral decoder, so no decode round trip is
  stated. `Roman.RomanOfDecomposes` gives the symbol-level decomposition
  instead.
- `int()` and `str.lower()` are modelled for ASCII decimal digits and ASCII
  letters only (`Text.Value`, `Text.Lower`).
- WordsExamples.SixDigits: states the word list, not the joined string.
