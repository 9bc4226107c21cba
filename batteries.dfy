/**
 * The battery banks of 2025/day-03/src/main.rs: each input line is a bank
 * of digit batteries; turning on n of them, kept in their order, gives the
 * n-digit number they spell, and the solver picks them greedily so that
 * this number is as large as possible.
 */
module Batteries {
  import opened Text
  import opened Numbers

  /** The digits of a line, in order; every other character is skipped (`char::to_digit(10)`). */
  function Digits(line: string): (bank: seq<nat>)
    ensures |bank| <= |line|
    ensures forall d | d in bank :: d < 10
    ensures AllDigits(line) ==> |bank| == |line| && forall i | 0 <= i < |line| :: bank[i] == DigitValue(line[i])
  {
    if line == [] then []
    else (if IsDigit(line[0]) then [DigitValue(line[0])] else []) + Digits(line[1..])
  }

  /** parse_input: one bank per line. */
  function ParseInput(input: string): (banks: seq<seq<nat>>)
    ensures |banks| == |Lines(input)|
    ensures forall i | 0 <= i < |banks| :: banks[i] == Digits(Lines(input)[i])
    ensures forall bank, d | bank in banks && d in bank :: d < 10
  {
    var lines := Lines(input);
    seq(|lines|, i requires 0 <= i < |lines| => Digits(lines[i]))
  }

  predicate IsBank(bank: seq<nat>) {
    forall i | 0 <= i < |bank| :: bank[i] < 10
  }

  // ---------------------------------------------------------------------------
  // The first maximum
  // ---------------------------------------------------------------------------

  /** The first position in lo..hi at which the bank holds its largest digit there (see FirstMaxInIsFirstMax). */
  function FirstMaxIn(bank: seq<nat>, lo: nat, hi: nat): (i: nat)
    requires lo < hi <= |bank|
    ensures lo <= i < hi
    decreases hi
  {
    if hi == lo + 1 then lo
    else
      var k := FirstMaxIn(bank, lo, hi - 1);
      if bank[hi - 1] > bank[k] then hi - 1 else k
  }

  /** No digit in lo..hi exceeds the one at FirstMaxIn, and every digit before it is smaller. */
  lemma {:induction false} FirstMaxInIsFirstMax(bank: seq<nat>, lo: nat, hi: nat)
    requires lo < hi <= |bank|
    ensures var i := FirstMaxIn(bank, lo, hi);
      && (forall j | lo <= j < hi :: bank[j] <= bank[i])
      && (forall j | lo <= j < i :: bank[j] < bank[i])
    decreases hi
  {
    if hi > lo + 1 {
      FirstMaxInIsFirstMax(bank, lo, hi - 1);
    }
  }

  /** The first maximum is the only position with its two properties. */
  lemma FirstMaxUnique(bank: seq<nat>, lo: nat, hi: nat, i: nat)
    requires lo <= i < hi <= |bank|
    requires forall j | lo <= j < hi :: bank[j] <= bank[i]
    requires forall j | lo <= j < i :: bank[j] < bank[i]
    ensures FirstMaxIn(bank, lo, hi) == i
  {
    var k := FirstMaxIn(bank, lo, hi);
    FirstMaxInIsFirstMax(bank, lo, hi);
    assert !(k < i) && !(i < k);
  }

  /** What find_max_with_index finds in a window of the bank is the bank's first maximum there. */
  lemma WindowFirstMax(bank: seq<nat>, lo: nat, hi: nat)
    requires lo < hi <= |bank|
    ensures lo + FirstMaxIn(bank[lo..hi], 0, hi - lo) == FirstMaxIn(bank, lo, hi)
  {
    var window := bank[lo..hi];
    var i := FirstMaxIn(window, 0, hi - lo);
    FirstMaxInIsFirstMax(window, 0, hi - lo);
    forall j | lo <= j < hi
      ensures bank[j] <= bank[lo + i]
    {
      assert bank[j] == window[j - lo];
    }
    forall j | lo <= j < lo + i
      ensures bank[j] < bank[lo + i]
    {
      assert bank[j] == window[j - lo];
    }
    FirstMaxUnique(bank, lo, hi, lo + i);
  }

  /** find_max_with_index: the first index of the largest element, and that element. */
  method FindMaxWithIndex(nums: seq<nat>) returns (maxIndex: nat, max: nat)
    requires |nums| > 0
    ensures maxIndex == FirstMaxIn(nums, 0, |nums|) && max == nums[maxIndex]
  {
    maxIndex := 0;
    max := nums[maxIndex];
    for index := 0 to |nums| - 1
      invariant maxIndex == FirstMaxIn(nums, 0, index + 1) && max == nums[maxIndex]
    {
      var num := nums[1..][index];
      if num > max {
        max := num;
        maxIndex := index + 1;
      }
    }
  }

  // ---------------------------------------------------------------------------
  // Choices of batteries and the numbers they spell
  // ---------------------------------------------------------------------------

  /** The number spelled by digits, most significant first. */
  function Value(digits: seq<nat>): nat {
    if digits == [] then 0 else Shift(digits[0], |digits| - 1) + Value(digits[1..])
  }

  /** n battery positions, strictly increasing, at or after `from`, inside the bank. */
  predicate IsChoice(indices: seq<nat>, from: nat, len: nat, n: nat) {
    && |indices| == n
    && (forall a | 0 <= a < n :: from <= indices[a] < len)
    && (forall a, b | 0 <= a < b < n :: indices[a] < indices[b])
  }

  function Select(bank: seq<nat>, indices: seq<nat>): (digits: seq<nat>)
    requires forall a | 0 <= a < |indices| :: indices[a] < |bank|
    ensures |digits| == |indices|
    ensures forall a | 0 <= a < |indices| :: digits[a] == bank[indices[a]]
  {
    seq(|indices|, a requires 0 <= a < |indices| => bank[indices[a]])
  }

  /** The positions the greedy solver turns on: for n left, the first maximum of the window that leaves n - 1 batteries after it. */
  function GreedyPicks(bank: seq<nat>, from: nat, n: nat): (indices: seq<nat>)
    requires from + n <= |bank|
    ensures IsChoice(indices, from, |bank|, n)
    decreases n
  {
    if n == 0 then []
    else
      var pick := FirstMaxIn(bank, from, |bank| - n + 1);
      [pick] + GreedyPicks(bank, pick + 1, n - 1)
  }

  /** The joltage the greedy solver adds up: each pick's digit weighted by 10^(batteries still to pick). */
  function GreedyValue(bank: seq<nat>, from: nat, n: nat): nat
    requires from + n <= |bank|
    decreases n
  {
    if n == 0 then 0
    else
      var pick := FirstMaxIn(bank, from, |bank| - n + 1);
      Shift(bank[pick], n - 1) + GreedyValue(bank, pick + 1, n - 1)
  }

  /** The joltage of a bank with n batteries on, as the greedy solver computes it. */
  function MaxJolts(bank: seq<nat>, n: nat): nat
    requires n <= |bank|
  {
    GreedyValue(bank, 0, n)
  }

  /** n digits spell a number below 10^n. */
  lemma {:induction false} ValueBound(digits: seq<nat>)
    requires forall a | 0 <= a < |digits| :: digits[a] < 10
    ensures Value(digits) < Shift(1, |digits|)
  {
    if digits != [] {
      var k := |digits| - 1;
      ValueBound(digits[1..]);
      DigitBelowNext(digits[0], k);
    }
  }

  /** A digit followed by k zeros, plus anything below 10^k, stays below 10^(k+1). */
  lemma DigitBelowNext(d: nat, k: nat)
    requires d < 10
    ensures Shift(d, k) + Shift(1, k) <= Shift(1, k + 1)
  {
    ShiftAdd(d, 1, k);
    ShiftAdd(d + 1, 9 - d, k);
    ShiftTen(1, k);
  }

  lemma ChoiceSpread(indices: seq<nat>, from: nat, len: nat, n: nat)
    requires IsChoice(indices, from, len, n)
    ensures forall a | 0 <= a < n :: indices[0] + a <= indices[a]
  {
    forall a | 0 <= a < n
      ensures indices[0] + a <= indices[a]
    {
      var k := 0;
      while k < a
        invariant k <= a && indices[0] + k <= indices[k]
      {
        k := k + 1;
      }
    }
  }

  lemma SelectTail(bank: seq<nat>, indices: seq<nat>)
    requires |indices| > 0 && forall a | 0 <= a < |indices| :: indices[a] < |bank|
    ensures Value(Select(bank, indices)) == Shift(bank[indices[0]], |indices| - 1) + Value(Select(bank, indices[1..]))
  {
    assert Select(bank, indices)[1..] == Select(bank, indices[1..]);
  }

  /** One round of the greedy solver: the first maximum of the window, weighted, plus the rounds after it. */
  lemma GreedyValueStep(bank: seq<nat>, from: nat, n: nat, pick: nat)
    requires n > 0 && from + n <= |bank|
    requires pick == FirstMaxIn(bank, from, |bank| - n + 1)
    ensures GreedyValue(bank, from, n) == Shift(bank[pick], n - 1) + GreedyValue(bank, pick + 1, n - 1)
  {
  }

  /**
   * After one more round, the running sum plus what the later rounds add
   * still makes the total: the window's first maximum is the greedy pick.
   */
  lemma GreedyRound(bank: seq<nat>, from: nat, n: nat, window: seq<nat>, maxIndex: nat, maxNum: nat, sum: nat, total: nat)
    requires n > 0 && from + n <= |bank| && window == bank[from..|bank| - n + 1]
    requires maxIndex == FirstMaxIn(window, 0, |window|) && maxNum == window[maxIndex]
    requires sum + GreedyValue(bank, from, n) == total
    ensures from + maxIndex + 1 + (n - 1) <= |bank|
    ensures sum + maxNum * Pow10(n - 1) + GreedyValue(bank, from + maxIndex + 1, n - 1) == total
  {
    var pick := from + maxIndex;
    WindowFirstMax(bank, from, |bank| - n + 1);
    assert maxNum == bank[pick];
    GreedyValueStep(bank, from, n, pick);
    ShiftIsProduct(bank[pick], n - 1);
  }

  lemma GreedyPicksStep(bank: seq<nat>, from: nat, n: nat, pick: nat)
    requires n > 0 && from + n <= |bank|
    requires pick == FirstMaxIn(bank, from, |bank| - n + 1)
    ensures var picks := GreedyPicks(bank, from, n);
      picks[0] == pick && picks[1..] == GreedyPicks(bank, pick + 1, n - 1)
  {
    var picks := GreedyPicks(bank, from, n);
    assert picks == [pick] + GreedyPicks(bank, pick + 1, n - 1);
  }

  /** The greedy sum is the number spelled by the greedy picks. */
  lemma {:induction false} GreedyValueSpelled(bank: seq<nat>, from: nat, n: nat)
    requires from + n <= |bank|
    ensures GreedyValue(bank, from, n) == Value(Select(bank, GreedyPicks(bank, from, n)))
    decreases n
  {
    if n > 0 {
      var pick := FirstMaxIn(bank, from, |bank| - n + 1);
      GreedyPicksStep(bank, from, n, pick);
      GreedyValueSpelled(bank, pick + 1, n - 1);
      SelectTail(bank, GreedyPicks(bank, from, n));
      GreedyValueStep(bank, from, n, pick);
    }
  }

  /**
   * No choice of n batteries at or after `from` spells a larger number
   * than the greedy one.
   */
  lemma {:induction false} GreedyIsLargest(bank: seq<nat>, from: nat, n: nat, indices: seq<nat>)
    requires IsBank(bank) && from + n <= |bank|
    requires IsChoice(indices, from, |bank|, n)
    ensures Value(Select(bank, indices)) <= GreedyValue(bank, from, n)
    decreases n
  {
    if n > 0 {
      var pick := FirstMaxIn(bank, from, |bank| - n + 1);
      var first := indices[0];
      FirstPickBound(bank, from, n, indices);
      SelectTail(bank, indices);
      GreedyValueStep(bank, from, n, pick);
      if bank[first] < bank[pick] {
        ValueBound(Select(bank, indices[1..]));
        LeadingDigitDecides(bank[first], bank[pick], n - 1);
      } else {
        TailChoice(bank, indices, from, pick, n);
        GreedyIsLargest(bank, pick + 1, n - 1, indices[1..]);
      }
    }
  }

  /** The first battery of a choice is no better than the greedy pick, and when it ties it does not come earlier. */
  lemma FirstPickBound(bank: seq<nat>, from: nat, n: nat, indices: seq<nat>)
    requires n > 0 && from + n <= |bank|
    requires IsChoice(indices, from, |bank|, n)
    ensures var pick := FirstMaxIn(bank, from, |bank| - n + 1);
      && bank[indices[0]] <= bank[pick]
      && (bank[indices[0]] == bank[pick] ==> pick <= indices[0])
  {
    ChoiceSpread(indices, from, |bank|, n);
    assert indices[0] + (n - 1) <= indices[n - 1];
    FirstMaxInIsFirstMax(bank, from, |bank| - n + 1);
  }

  /** Once the first pick ties the greedy one, the rest of a choice is a choice after the greedy pick. */
  lemma TailChoice(bank: seq<nat>, indices: seq<nat>, from: nat, pick: nat, n: nat)
    requires n > 0 && IsChoice(indices, from, |bank|, n) && pick <= indices[0]
    ensures IsChoice(indices[1..], pick + 1, |bank|, n - 1)
  {
  }

  /** A smaller leading digit loses, whatever follows it: a * 10^k + 10^k <= b * 10^k. */
  lemma LeadingDigitDecides(a: nat, b: nat, k: nat)
    requires a < b
    ensures Shift(a, k) + Shift(1, k) <= Shift(b, k)
  {
    ShiftAdd(a, 1, k);
    ShiftAdd(a + 1, b - a - 1, k);
  }

  /** The greedy joltage is spelled by n batteries kept in order, is below 10^n, and no other choice beats it. */
  lemma MaxJoltsIsLargest(bank: seq<nat>, n: nat)
    requires IsBank(bank) && n <= |bank|
    ensures IsChoice(GreedyPicks(bank, 0, n), 0, |bank|, n)
    ensures MaxJolts(bank, n) == Value(Select(bank, GreedyPicks(bank, 0, n)))
    ensures MaxJolts(bank, n) < Pow10(n)
    ensures forall indices | IsChoice(indices, 0, |bank|, n) :: Value(Select(bank, indices)) <= MaxJolts(bank, n)
  {
    GreedyValueSpelled(bank, 0, n);
    ValueBound(Select(bank, GreedyPicks(bank, 0, n)));
    ShiftIsProduct(1, n);
    forall indices | IsChoice(indices, 0, |bank|, n)
      ensures Value(Select(bank, indices)) <= MaxJolts(bank, n)
    {
      GreedyIsLargest(bank, 0, n, indices);
    }
  }

  /**
   * find_max_jolts_of_battery_bank: for n = count down to 1, the first
   * maximum of the window that still leaves n - 1 batteries, weighted by
   * 10^(n-1). The source computes `bank.len() - n`, so the bank must hold
   * at least `count` batteries.
   */
  method FindMaxJoltsOfBatteryBank(bank: seq<nat>, count: nat) returns (maxJolts: nat)
    requires count <= |bank|
    ensures maxJolts == MaxJolts(bank, count)
  {
    var startIndex: nat := 0;
    maxJolts := 0;
    var n: nat := count;
    ghost var total := MaxJolts(bank, count);
    while n >= 1
      invariant startIndex + n <= |bank|
      invariant maxJolts + GreedyValue(bank, startIndex, n) == total
    {
      var window := bank[startIndex..|bank| - n + 1];
      var maxIndex, maxNum := FindMaxWithIndex(window);
      GreedyRound(bank, startIndex, n, window, maxIndex, maxNum, maxJolts, total);
      startIndex := startIndex + maxIndex + 1;
      ShiftIsProduct(maxNum, n - 1);
      maxJolts := maxJolts + maxNum * Pow10(n - 1);
      n := n - 1;
    }
  }

  /** max_joltage: the joltages of all banks added up. */
  function MaxJoltage(banks: seq<seq<nat>>, count: nat): (total: nat)
    requires forall bank | bank in banks :: count <= |bank|
    ensures banks == [] ==> total == 0
    ensures forall k | 0 <= k < |banks| :: MaxJolts(banks[k], count) <= total
  {
    if banks == [] then 0 else MaxJolts(banks[0], count) + MaxJoltage(banks[1..], count)
  }

  /** Each bank contributes at most 10^count - 1. */
  lemma {:induction false} MaxJoltageBound(banks: seq<seq<nat>>, count: nat)
    requires forall bank | bank in banks :: count <= |bank| && IsBank(bank)
    ensures MaxJoltage(banks, count) <= |banks| * (Pow10(count) - 1)
  {
    if banks != [] {
      assert banks[0] in banks;
      assert forall bank | bank in banks[1..] :: bank in banks;
      BankBound(banks[0], count);
      MaxJoltageBound(banks[1..], count);
      AddBound(MaxJoltage(banks, count), MaxJolts(banks[0], count), MaxJoltage(banks[1..], count),
               |banks|, Pow10(count) - 1);
    }
  }

  /** One bank's joltage has at most `count` digits. */
  lemma BankBound(bank: seq<nat>, count: nat)
    requires IsBank(bank) && count <= |bank|
    ensures MaxJolts(bank, count) <= Pow10(count) - 1
  {
    MaxJoltsIsLargest(bank, count);
  }

  lemma AddBound(total: nat, first: nat, rest: nat, n: nat, most: nat)
    requires n > 0 && total == first + rest && first <= most && rest <= (n - 1) * most
    ensures total <= n * most
  {
    Distribute(most, n - 1, 1);
  }

  /** The total over a list of banks is the total over its parts. */
  lemma {:induction false} MaxJoltageAppend(a: seq<seq<nat>>, b: seq<seq<nat>>, count: nat)
    requires forall bank | bank in a + b :: count <= |bank|
    ensures MaxJoltage(a + b, count) == MaxJoltage(a, count) + MaxJoltage(b, count)
  {
    if a == [] {
      assert a + b == b;
    } else {
      assert (a + b)[0] == a[0];
      assert (a + b)[1..] == a[1..] + b;
      MaxJoltageAppend(a[1..], b, count);
    }
  }
}
