/** Greedy subtractive Roman-numeral encoding (`toRoman`). */
module Roman {
  import opened Tables

  /** A numeral is described by the table indices of its symbols. */
  predicate ValidIndices(ids: seq<nat>) {
    forall p :: 0 <= p < |ids| ==> ids[p] < |RomanValues|
  }

  /** The symbol at table index `id` (none past the end of the table). */
  function SymbolAt(id: nat): string {
    if id < |RomanSymbols| then RomanSymbols[id] else ""
  }

  /** The value at table index `id` (none past the end of the table). */
  function ValueAt(id: nat): nat {
    if id < |RomanValues| then RomanValues[id] else 0
  }

  /** The text of a sequence of table symbols. */
  function Spell(ids: seq<nat>): string {
    if ids == [] then "" else SymbolAt(ids[0]) + Spell(ids[1..])
  }

  /** The sum of the table values of a sequence of symbols. */
  function Sum(ids: seq<nat>): nat {
    if ids == [] then 0 else ValueAt(ids[0]) + Sum(ids[1..])
  }

  /** The symbols emitted for the remainder `num` when the table is tried
      from index `i` on: the symbol of the largest value that still fits,
      one at a time. */
  function Greedy(num: nat, i: nat): seq<nat>
    decreases num, |RomanValues| - i
  {
    if num == 0 || i >= |RomanValues| then []
    else if num >= RomanValues[i] then [i] + Greedy(num - RomanValues[i], i)
    else Greedy(num, i + 1)
  }

  /** The numeral `toRoman` produces (upper case). */
  function RomanOf(num: nat): string {
    Spell(Greedy(num, 0))
  }

  /** The table lists values in strictly decreasing order, ending with 1. */
  lemma ValuesDecrease(j: nat, k: nat)
    requires j < k < |RomanValues|
    ensures RomanValues[j] > RomanValues[k] >= 1
  {
  }

  /** The symbols emitted for `num` add up to `num`: the encoding is exact
      for every natural number. */
  lemma {:induction false} GreedySum(num: nat, i: nat)
    requires i < |RomanValues|
    ensures Sum(Greedy(num, i)) == num
    decreases num, |RomanValues| - i
  {
    if num == 0 {
    } else if num >= RomanValues[i] {
      var rest := Greedy(num - RomanValues[i], i);
      GreedySum(num - RomanValues[i], i);
      assert ([i] + rest)[1..] == rest;
    } else {
      assert RomanValues[|RomanValues| - 1] == 1;
      GreedySum(num, i + 1);
    }
  }

  /** Table entries larger than the remainder are passed over. */
  lemma {:induction false} SkipLarger(num: nat, i: nat, j: nat)
    requires i <= j <= |RomanValues|
    requires forall k :: i <= k < j ==> RomanValues[k] > num
    ensures Greedy(num, i) == Greedy(num, j)
    decreases j - i
  {
    if i < j {
      SkipLarger(num, i + 1, j);
    }
  }

  /** Every symbol is a table entry at or after `i`. */
  lemma {:induction false} GreedyBounds(num: nat, i: nat)
    ensures forall p :: 0 <= p < |Greedy(num, i)| ==> i <= Greedy(num, i)[p] < |RomanValues|
    decreases num, |RomanValues| - i
  {
    if num == 0 || i >= |RomanValues| {
    } else if num >= RomanValues[i] {
      GreedyBounds(num - RomanValues[i], i);
      assert Greedy(num, i) == [i] + Greedy(num - RomanValues[i], i);
    } else {
      GreedyBounds(num, i + 1);
    }
  }

  /** Symbols come out in table order. */
  lemma {:induction false} GreedyInTableOrder(num: nat, i: nat)
    ensures forall p, q :: 0 <= p < q < |Greedy(num, i)| ==> Greedy(num, i)[p] <= Greedy(num, i)[q]
    decreases num, |RomanValues| - i
  {
    if num == 0 || i >= |RomanValues| {
    } else if num >= RomanValues[i] {
      var rest := Greedy(num - RomanValues[i], i);
      GreedyInTableOrder(num - RomanValues[i], i);
      GreedyBounds(num - RomanValues[i], i);
      var ids := Greedy(num, i);
      assert ids == [i] + rest;
      forall p, q | 0 <= p < q < |ids|
        ensures ids[p] <= ids[q]
      {
        assert ids[q] == rest[q - 1];
        if p > 0 {
          assert ids[p] == rest[p - 1];
        }
      }
    } else {
      GreedyInTableOrder(num, i + 1);
    }
  }

  /** Symbol `p` of `ids` has the largest table value that fits into what
      is left of `num` once the symbols before it are taken off: it fits,
      and no earlier table entry would have fitted. */
  predicate LargestAt(ids: seq<nat>, num: nat, p: nat)
    requires p < |ids|
  {
    var rest := num - Sum(ids[..p]);
    ids[p] < |RomanValues| && RomanValues[ids[p]] <= rest &&
    forall j :: 0 <= j < ids[p] ==> RomanValues[j] > rest
  }

  /** Every symbol the greedy encoding emits is the one of largest value
      that fits into the remainder at that point. */
  lemma {:induction false} GreedyChoosesLargest(num: nat, i: nat)
    requires i <= |RomanValues|
    requires forall j :: 0 <= j < i ==> RomanValues[j] > num
    ensures forall p :: 0 <= p < |Greedy(num, i)| ==> LargestAt(Greedy(num, i), num, p)
    decreases num, |RomanValues| - i
  {
    if num == 0 || i >= |RomanValues| {
    } else if num >= RomanValues[i] {
      var rest := Greedy(num - RomanValues[i], i);
      GreedyChoosesLargest(num - RomanValues[i], i);
      var ids := Greedy(num, i);
      assert ids == [i] + rest;
      forall p | 0 <= p < |ids|
        ensures LargestAt(ids, num, p)
      {
        if p == 0 {
          assert ids[..0] == [];
        } else {
          assert LargestAt(rest, num - RomanValues[i], p - 1);
          assert ids[..p] == [i] + rest[..p - 1];
          assert ([i] + rest[..p - 1])[1..] == rest[..p - 1];
        }
      }
    } else {
      GreedyChoosesLargest(num, i + 1);
    }
  }

  /** So in the numeral for `num`, each symbol is the largest that fits. */
  lemma RomanChoosesLargest(num: nat)
    ensures forall p :: 0 <= p < |Greedy(num, 0)| ==> LargestAt(Greedy(num, 0), num, p)
  {
    GreedyChoosesLargest(num, 0);
  }

  /** The numeral for `num` reads as table symbols, in non-increasing value
      order, that add up to `num`. */
  lemma RomanOfDecomposes(num: nat)
    ensures var ids := Greedy(num, 0);
      RomanOf(num) == Spell(ids) && ValidIndices(ids) && Sum(ids) == num &&
      forall p, q :: 0 <= p < q < |ids| ==> RomanValues[ids[p]] >= RomanValues[ids[q]]
  {
    var ids := Greedy(num, 0);
    GreedySum(num, 0);
    GreedyBounds(num, 0);
    GreedyInTableOrder(num, 0);
    forall p, q | 0 <= p < q < |ids|
      ensures RomanValues[ids[p]] >= RomanValues[ids[q]]
    {
      if ids[p] < ids[q] {
        ValuesDecrease(ids[p], ids[q]);
      }
    }
  }

  lemma RoomForOneMore(n: nat, v: nat, k: nat)
    requires v > 0 && k < n / v
    ensures n - k * v >= v
    ensures n - (k + 1) * v == n - k * v - v
  {
    assert (k + 1) * v <= (n / v) * v;
  }

  lemma QuotientRemainder(n: nat, v: nat)
    requires v > 0
    ensures n - (n / v) * v == n % v < v
  {
  }

  lemma ConcatAssoc(a: string, b: string, c: string)
    ensures (a + b) + c == a + (b + c)
  {
  }

  /** The inner loop of `toRoman`: emit table entry `i` as many times as it
      fits into `num0`, taking its value off each time. What is emitted
      together with the greedy encoding of the remainder from entry `i + 1`
      on is the greedy encoding of `num0` from entry `i` on. */
  method EmitEntry(r0: string, num0: nat, i: nat) returns (r: string, num: nat)
    requires i < |RomanValues|
    ensures num < RomanValues[i]
    ensures r + Spell(Greedy(num, i + 1)) == r0 + Spell(Greedy(num0, i))
  {
    var v := RomanValues[i];
    r, num := r0, num0;
    for k := 0 to num0 / v
      invariant num == num0 - k * v
      invariant r + Spell(Greedy(num, i)) == r0 + Spell(Greedy(num0, i))
    {
      RoomForOneMore(num0, v, k);
      ghost var rest := Greedy(num - v, i);
      assert Greedy(num, i) == [i] + rest;
      assert ([i] + rest)[1..] == rest;
      ConcatAssoc(r, RomanSymbols[i], Spell(rest));
      r := r + RomanSymbols[i];
      num := num - v;
    }
    QuotientRemainder(num0, v);
    assert Greedy(num, i) == Greedy(num, i + 1);
  }

  /** `toRoman`: while something is left, emit table entry `i` as many times
      as it fits, then move to the next entry. */
  method ToRoman(num0: nat) returns (r: string)
    ensures r == RomanOf(num0)
  {
    r := "";
    var num := num0;
    var i := 0;
    while num > 0
      invariant i <= |RomanValues|
      invariant num > 0 ==> i < |RomanValues|
      invariant r + Spell(Greedy(num, i)) == RomanOf(num0)
      decreases |RomanValues| - i
    {
      r, num := EmitEntry(r, num, i);
      assert i + 1 == |RomanValues| ==> num == 0;
      i := i + 1;
    }
    assert r + Spell(Greedy(num, i)) == r + "";
  }
}
