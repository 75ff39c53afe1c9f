/** The search for a free username: the base name, then the base name with a counter. */
module Usernames {
  import opened Prelude

  /** base, base1, base2, ... */
  function Candidate(base: string, n: nat): string
  {
    if n == 0 then base else base + Decimal(n)
  }

  lemma CandidatesDiffer(base: string, m: nat, n: nat)
    requires Candidate(base, m) == Candidate(base, n)
    ensures m == n
  {
    assert Candidate(base, m)[|base|..] == if m == 0 then [] else Decimal(m);
    assert Candidate(base, n)[|base|..] == if n == 0 then [] else Decimal(n);
    if m != 0 && n != 0 { DecimalIsInjective(m, n); }
  }

  /** The candidates tried before the n-th. */
  function Tried(base: string, n: nat): set<string>
  {
    if n == 0 then {} else Tried(base, n - 1) + {Candidate(base, n - 1)}
  }

  lemma {:induction false} NotTriedYet(base: string, n: nat, k: nat)
    requires n <= k
    ensures Candidate(base, k) !in Tried(base, n)
  {
    if n > 0 {
      NotTriedYet(base, n - 1, k);
      if Candidate(base, k) == Candidate(base, n - 1) { CandidatesDiffer(base, k, n - 1); }
    }
  }

  /** How many taken names the candidates before the n-th have not used up. */
  function Left(taken: set<string>, base: string, n: nat): nat
  {
    |taken - Tried(base, n)|
  }

  /** Each taken candidate uses up one of finitely many taken names. */
  lemma OneLess(taken: set<string>, base: string, n: nat)
    requires Candidate(base, n) in taken
    ensures Left(taken, base, n + 1) < Left(taken, base, n)
  {
    NotTriedYet(base, n, n);
    assert taken - Tried(base, n + 1) == (taken - Tried(base, n)) - {Candidate(base, n)};
  }

  /** The number of the first free candidate from the n-th on. */
  function FirstFree(taken: set<string>, base: string, n: nat): nat
    decreases Left(taken, base, n)
  {
    if Candidate(base, n) !in taken then n
    else
      OneLess(taken, base, n);
      FirstFree(taken, base, n + 1)
  }

  function FreeUsername(taken: set<string>, base: string): string
  {
    Candidate(base, FirstFree(taken, base, 0))
  }

  lemma {:induction false} FirstFreeIsFirst(taken: set<string>, base: string, n: nat)
    ensures var k := FirstFree(taken, base, n);
            && n <= k && Candidate(base, k) !in taken
            && forall j :: n <= j < k ==> Candidate(base, j) in taken
    decreases Left(taken, base, n)
  {
    if Candidate(base, n) in taken {
      OneLess(taken, base, n);
      FirstFreeIsFirst(taken, base, n + 1);
    }
  }

  /** The name found is free, and every candidate before it is taken. */
  lemma FreeUsernameIsFresh(taken: set<string>, base: string)
    ensures FreeUsername(taken, base) !in taken
    ensures forall j :: 0 <= j < FirstFree(taken, base, 0) ==> Candidate(base, j) in taken
  {
    FirstFreeIsFirst(taken, base, 0);
  }

  /** The search as the service runs it; it ends because only finitely many names are taken. */
  method FindFreeUsername(taken: set<string>, base: string) returns (username: string)
    ensures username == FreeUsername(taken, base)
  {
    username := base;
    var counter := 1;
    while username in taken
      invariant counter >= 1 && username == Candidate(base, counter - 1)
      invariant FirstFree(taken, base, counter - 1) == FirstFree(taken, base, 0)
      decreases Left(taken, base, counter - 1)
    {
      OneLess(taken, base, counter - 1);
      username := base + Decimal(counter);
      counter := counter + 1;
    }
  }

  /** The name before the @, in small letters, without anything but letters and digits. */
  function BaseUsername(email: string): string
  {
    if email == [] || email[0] == '@' then []
    else
      var c := email[0];
      var rest := BaseUsername(email[1..]);
      if 'A' <= c <= 'Z' then [(c as int - 'A' as int + 'a' as int) as char] + rest
      else if 'a' <= c <= 'z' || '0' <= c <= '9' then [c] + rest
      else rest
  }

  /** The candidates are the base itself, then the base followed by 1, 2, 3 and so on. */
  lemma CandidateMeans(base: string, n: nat)
    ensures base <= Candidate(base, n)
    ensures var counter := Candidate(base, n)[|base|..];
            if n == 0 then counter == "" else counter != "" && counter[0] != '0' && NumberOf(counter) == n
  {
    if n > 0 {
      DecimalReadsBack(n);
      assert Candidate(base, n)[|base|..] == Decimal(n);
    }
  }

  /** What one character of an email before the @ adds to the base name. */
  lemma BaseOfOne(c: char)
    ensures var r := BaseUsername([c]);
            && ('a' <= c <= 'z' || '0' <= c <= '9' ==> r == [c])
            && ('A' <= c <= 'Z' ==> |r| == 1 && 'a' <= r[0] <= 'z' && r[0] as int == c as int + 32)
            && (!('a' <= c <= 'z' || '0' <= c <= '9' || 'A' <= c <= 'Z') ==> r == "")
  {
    assert [c][1..] == [];
  }

  /** Before the @ every character adds its own, in order. */
  lemma {:induction false} BaseJoins(before: string, after: string)
    requires '@' !in before
    ensures BaseUsername(before + after) == BaseUsername(before) + BaseUsername(after)
  {
    if before == [] {
      assert before + after == after;
    } else {
      assert (before + after)[0] == before[0] && (before + after)[1..] == before[1..] + after;
      BaseJoins(before[1..], after);
    }
  }

  /** What follows the @ adds nothing. */
  lemma BaseEndsAtSign(before: string, after: string)
    requires '@' !in before
    ensures BaseUsername(before + (['@'] + after)) == BaseUsername(before)
  {
    BaseJoins(before, ['@'] + after);
  }
}
