/** The card-number check: the Luhn sum of ISO/IEC 7812-1, Annex B, as a loop from the right. */
module Luhn {

  type Digit = d: int | 0 <= d <= 9

  predicate IsDigit(c: char) { '0' <= c <= '9' }

  /** The digits of a text; every other character is dropped. */
  function Sanitized(value: string): seq<Digit>
  {
    if value == [] then []
    else if IsDigit(value[0]) then [(value[0] as int - '0' as int) as Digit] + Sanitized(value[1..])
    else Sanitized(value[1..])
  }

  /** What a digit adds: doubled ones count their digit sum. */
  function Contribution(d: Digit, doubled: bool): (r: Digit)
    ensures doubled ==> r == 2 * d / 10 + 2 * d % 10
  {
    if !doubled then d else if 2 * d > 9 then 2 * d - 9 else 2 * d
  }

  /** Whether the digit with this many digits after it is doubled: every second one from the right. */
  predicate Doubled(after: nat)
  {
    after > 0 && !Doubled(after - 1)
  }

  function LuhnSum(s: seq<Digit>): nat
  {
    if s == [] then 0 else Contribution(s[0], Doubled(|s| - 1)) + LuhnSum(s[1..])
  }

  predicate Passes(s: seq<Digit>) { LuhnSum(s) % 10 == 0 }

  method IsCreditCard(value: string) returns (valid: bool)
    ensures valid <==> 13 <= |Sanitized(value)| <= 19 && LuhnSum(Sanitized(value)) % 10 == 0
  {
    var sanitized := Sanitized(value);
    if |sanitized| < 13 || |sanitized| > 19 {
      return false;
    }
    var sum := 0;
    var isEven := false;
    var i := |sanitized| - 1;
    while i >= 0
      invariant -1 <= i < |sanitized|
      invariant sum == LuhnSum(sanitized[i + 1..])
      invariant isEven == Doubled(|sanitized| - 1 - i)
      decreases i
    {
      var digit: int := sanitized[i];
      if isEven {
        digit := digit * 2;
        if digit > 9 {
          digit := digit - 9;
        }
      }
      assert sanitized[i..][0] == sanitized[i] && sanitized[i..][1..] == sanitized[i + 1..];
      sum := sum + digit;
      isEven := !isEven;
      i := i - 1;
    }
    return sum % 10 == 0;
  }

  /** The sum read position by position: one changed digit changes one term. */
  lemma {:induction false} OneTerm(s: seq<Digit>, i: nat, d: Digit)
    requires i < |s|
    ensures var doubled := Doubled(|s| - 1 - i);
            LuhnSum(s[i := d]) - Contribution(d, doubled) == LuhnSum(s) - Contribution(s[i], doubled)
  {
    if i > 0 {
      assert s[i := d][1..] == s[1..][i - 1 := d];
      OneTerm(s[1..], i - 1, d);
    } else {
      assert s[i := d][1..] == s[1..];
    }
  }

  /** Doubling and casting out nines permutes the digits. */
  lemma ContributionIsInjective(a: Digit, b: Digit, doubled: bool)
    ensures Contribution(a, doubled) == Contribution(b, doubled) <==> a == b
  {
  }

  /** Every single wrong digit is caught, in numbers of any length. */
  lemma CatchesSingleErrors(s: seq<Digit>, i: nat, d: Digit)
    requires i < |s| && Passes(s)
    ensures Passes(s[i := d]) <==> d == s[i]
  {
    OneTerm(s, i, d);
    ContributionIsInjective(d, s[i], Doubled(|s| - 1 - i));
    LessThanTenApart(LuhnSum(s), LuhnSum(s[i := d]));
  }

  function Swapped(s: seq<Digit>, i: nat): seq<Digit>
    requires i + 1 < |s|
  {
    s[i := s[i + 1]][i + 1 := s[i]]
  }

  /** What swapping a before b adds, when the place of a is doubled or not. */
  function SwapGain(a: Digit, b: Digit, doubled: bool): int
  {
    Contribution(b, doubled) + Contribution(a, !doubled) - Contribution(a, doubled) - Contribution(b, !doubled)
  }

  /** The same, for two numbers that differ in one place. */
  lemma DifferInOne(s: seq<Digit>, t: seq<Digit>, i: nat)
    requires i < |s| == |t| && forall k :: 0 <= k < |s| && k != i ==> s[k] == t[k]
    ensures LuhnSum(t) - Contribution(t[i], Doubled(|s| - 1 - i))
            == LuhnSum(s) - Contribution(s[i], Doubled(|s| - 1 - i))
  {
    assert s[i := t[i]] == t;
    OneTerm(s, i, t[i]);
  }

  lemma SwapAdds(s: seq<Digit>, halfway: seq<Digit>, swapped: seq<Digit>, i: nat, left: bool)
    requires i + 1 < |s| == |halfway| == |swapped|
    requires left == Doubled(|s| - 1 - i)
    requires forall k :: 0 <= k < |s| && k != i ==> halfway[k] == s[k]
    requires forall k :: 0 <= k < |s| && k != i + 1 ==> swapped[k] == halfway[k]
    requires halfway[i] == s[i + 1] && swapped[i + 1] == s[i]
    ensures LuhnSum(swapped) == LuhnSum(s) + SwapGain(s[i], s[i + 1], left)
  {
    DifferInOne(s, halfway, i);
    DifferInOne(halfway, swapped, i + 1);
    assert left == !Doubled(|s| - 1 - (i + 1));
  }

  lemma SwapGainIsSmall(a: Digit, b: Digit, doubled: bool)
    ensures -10 < SwapGain(a, b, doubled) < 10
    ensures SwapGain(a, b, doubled) == 0 <==> a == b || (a == 0 && b == 9) || (a == 9 && b == 0)
  {
  }

  lemma LessThanTenApart(a: nat, b: nat)
    requires a % 10 == 0 && -10 < b - a < 10
    ensures b % 10 == 0 <==> b == a
  {
  }

  /** Of the swaps of two neighbours, exactly those of equal digits and of 0 with 9 go unnoticed. */
  lemma CatchesSwapsExceptZeroNine(s: seq<Digit>, i: nat)
    requires i + 1 < |s| && Passes(s)
    ensures Passes(Swapped(s, i)) <==>
              s[i] == s[i + 1] || (s[i] == 0 && s[i + 1] == 9) || (s[i] == 9 && s[i + 1] == 0)
  {
    SwapAdds(s, s[i := s[i + 1]], Swapped(s, i), i, Doubled(|s| - 1 - i));
    SwapGainIsSmall(s[i], s[i + 1], Doubled(|s| - 1 - i));
    LessThanTenApart(LuhnSum(s), LuhnSum(Swapped(s, i)));
  }

  lemma LastDigit(payload: seq<Digit>, d: Digit, e: Digit)
    ensures LuhnSum(payload + [d]) - d == LuhnSum(payload + [e]) - e
  {
    OneTerm(payload + [d], |payload|, e);
    assert (payload + [d])[|payload| := e] == payload + [e];
  }

  function CheckDigit(payload: seq<Digit>): Digit
  {
    (10 - LuhnSum(payload + [0]) % 10) % 10
  }

  lemma OneResidue(n: nat, d: Digit)
    ensures (n + d) % 10 == 0 <==> d == (10 - n % 10) % 10
  {
  }

  /** Every payload has exactly one last digit that makes it pass. */
  lemma OneCheckDigit(payload: seq<Digit>, d: Digit)
    ensures Passes(payload + [d]) <==> d == CheckDigit(payload)
  {
    LastDigit(payload, d, 0);
    OneResidue(LuhnSum(payload + [0]), d);
  }

  // ---------------------------------------------------------------- what is summed

  lemma {:induction false} DoubledIsOdd(after: nat)
    ensures Doubled(after) <==> after % 2 == 1
  {
    if after > 0 { DoubledIsOdd(after - 1); }
  }

  /**
   * A digit put in front adds itself if an even number of digits follows it, and else the digits of its
   * double.
   */
  lemma LuhnSumMeans(d: Digit, s: seq<Digit>)
    ensures LuhnSum([]) == 0
    ensures LuhnSum([d] + s) - LuhnSum(s) == if |s| % 2 == 0 then d else 2 * d / 10 + 2 * d % 10
  {
    DoubledIsOdd(|s|);
    assert ([d] + s)[1..] == s;
  }

  /** Every digit of the text is kept with its value, every other character dropped. */
  lemma {:induction false} SanitizedMeans(a: string, c: char, b: string)
    ensures Sanitized(a + [c] + b)
         == Sanitized(a) + (if '0' <= c <= '9' then [(c as int - 48) as Digit] else []) + Sanitized(b)
    ensures Sanitized("") == []
  {
    if a == [] {
      assert (a + [c] + b)[1..] == b;
    } else {
      assert (a + [c] + b)[1..] == a[1..] + [c] + b;
      SanitizedMeans(a[1..], c, b);
    }
  }
}
