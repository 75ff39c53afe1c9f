/** How many guesses a span of time can hold that meet an unexpired, unlocked verification code. */
module AuthGuesses {
  import opened Prelude
  import opened Auth
  import opened AuthAccounts
  import opened AuthRows
  import AuthCodes

  /** A guess at the verification code of m while there is one to guess. */
  predicate Meets(row: Option<User>, s: Step, m: string)
  {
    s.VerifyCode? && s.email == m && Open(row, s.at)
  }

  function Met(row: Option<User>, s: Step, m: string, lo: int, hi: int): nat
  {
    if lo <= s.at <= hi && Meets(row, s, m) then 1 else 0
  }

  /** The guesses of a run between times lo and hi that meet an open code of m. */
  function GuessesMet(steps: seq<Step>, m: string, lo: int, hi: int): nat
    decreases |steps|
  {
    if steps == [] then 0
    else
      var before, s := steps[..|steps| - 1], steps[|steps| - 1];
      GuessesMet(before, m, lo, hi) + Met(Row(After(before), m), s, m, lo, hi)
  }

  // ---------------------------------------------------------------- what is left to guess

  function Max(a: int, b: int): int { if a <= b then b else a }

  /** How many codes can still be issued from time t up to hi, one a minute. */
  function Issues(t: int, hi: int): nat
  {
    if t > hi then 0 else (hi - t) / COOLDOWN + 1
  }

  function Tries(slot: CodeSlot): nat
  {
    if slot.code.Some? && slot.attempts < MAX_ATTEMPTS then MAX_ATTEMPTS - slot.attempts else 0
  }

  /** The earliest time the next code can be issued. */
  function NextIssueTime(slot: CodeSlot, now: int): int
  {
    if slot.sentAt.Some? then Max(now, slot.sentAt.value + COOLDOWN) else now
  }

  /** How many guesses can still meet an open code up to hi. */
  function Budget(row: Option<User>, now: int, lo: int, hi: int): nat
  {
    if now > hi then 0
    else if now < lo then MAX_ATTEMPTS + MAX_ATTEMPTS * Issues(lo, hi)
    else match row
         case None => MAX_ATTEMPTS * Issues(now, hi)
         case Some(u) =>
           if u.emailVerified then 0
           else Tries(u.verification) + MAX_ATTEMPTS * Issues(NextIssueTime(u.verification, now), hi)
  }

  /** Waiting adds nothing. */
  lemma BudgetOverTime(row: Option<User>, now: int, later: int, lo: int, hi: int)
    requires now <= later
    ensures Budget(row, later, lo, hi) <= Budget(row, now, lo, hi)
  {
  }

  // ---------------------------------------------------------------- no step adds to it

  /** A code is only issued when the last one is a minute old. */
  lemma IssuePays(row: Option<User>, next: Option<User>, code: string, at: int, lo: int, hi: int)
    requires row.Some? ==> !row.value.emailVerified && !CoolingDown(row.value.verification, at)
    requires next.Some? && next.value.verification == Issued(code, at)
    ensures Budget(next, at, lo, hi) <= Budget(row, at, lo, hi)
  {
  }

  lemma GuessPays(row: Option<User>, next: Option<User>, s: Step, m: string, accepted: bool, wrong: bool, lo: int,
                  hi: int)
    requires s.VerifyCode? && (row.Some? ==> row.value.email == m)
    requires s.email == m && Open(row, s.at) ==> accepted || wrong
    requires next == if row.Some? && accepted && m == s.email then Some(Accepted(row.value))
                     else if wrong && row.Some? then Some(GuessedRow(row.value, s.email))
                     else row
    ensures Budget(next, s.at, lo, hi) + Met(row, s, m, lo, hi) <= Budget(row, s.at, lo, hi)
  {
  }

  /** What a step adds to the guesses met it takes from the budget. */
  predicate Pays(users: seq<User>, o: Outcome, s: Step, m: string, lo: int, hi: int)
  {
    Budget(Row(o.users, m), s.at, lo, hi) + Met(Row(users, m), s, m, lo, hi) <= Budget(Row(users, m), s.at, lo, hi)
  }

  lemma RegisterPays(users: seq<User>, s: Step, m: string, lo: int, hi: int)
    requires AccountsOk(users) && s.Register?
    ensures Pays(users, Registered(users, s.email, s.username, s.password, s.code, s.token, s.at), s, m, lo, hi)
  {
    var o := Registered(users, s.email, s.username, s.password, s.code, s.token, s.at);
    RegisterRow(users, s.email, s.username, s.password, s.code, s.token, s.at, m);
    if o.reply.Done? && m == s.email { IssuePays(None, Row(o.users, m), s.code, s.at, lo, hi); }
  }

  lemma ResendPays(users: seq<User>, s: Step, m: string, lo: int, hi: int)
    requires AccountsOk(users) && s.Resend?
    ensures Pays(users, Resent(users, s.email, s.code, s.at), s, m, lo, hi)
  {
    var o := Resent(users, s.email, s.code, s.at);
    ResendRow(users, s.email, s.code, s.at, m);
    if o.reply.Done? && m == s.email { IssuePays(Row(users, m), Row(o.users, m), s.code, s.at, lo, hi); }
  }

  /** A code that can still be guessed is not marked used. */
  predicate Fresh(row: Option<User>)
  {
    row.Some? && !row.value.emailVerified && row.value.verification.code.Some? ==> !row.value.verification.used
  }

  lemma AlwaysFresh(steps: seq<Step>, m: string)
    ensures Fresh(Row(After(steps), m))
  {
    AuthCodes.HistoryTells(steps, m);
  }

  lemma VerifyPays(users: seq<User>, s: Step, m: string, lo: int, hi: int)
    requires AccountsOk(users) && s.VerifyCode? && Fresh(Row(users, m))
    ensures Pays(users, VerifiedByCode(users, s.email, s.code, s.at), s, m, lo, hi)
  {
    var o := VerifiedByCode(users, s.email, s.code, s.at);
    VerifyRow(users, s.email, s.code, s.at, m);
    RowHasEmail(users, m);
    var row := Row(users, m);
    var wrong := o.reply == Refused(InvalidCode);
    assert s.email == m && Open(row, s.at) && !wrong ==> CodeMatches(row, s.code);
    GuessPays(row, Row(o.users, m), s, m, o.reply.Done?, wrong, lo, hi);
  }

  lemma ForgotPays(users: seq<User>, s: Step, m: string, lo: int, hi: int)
    requires AccountsOk(users) && s.Forgot?
    ensures Pays(users, Forgotten(users, s.email, s.code, s.at), s, m, lo, hi)
  {
    ForgotRow(users, s.email, s.code, s.at, m);
  }

  lemma CheckPays(users: seq<User>, s: Step, m: string, lo: int, hi: int)
    requires AccountsOk(users) && s.CheckReset?
    ensures Pays(users, ResetCodeChecked(users, s.email, s.code, s.at), s, m, lo, hi)
  {
    CheckRow(users, s.email, s.code, s.at, m);
  }

  lemma ResetPays(users: seq<User>, s: Step, m: string, lo: int, hi: int)
    requires AccountsOk(users) && s.ResetPassword?
    ensures Pays(users, PasswordReset(users, s.email, s.code, s.password, s.at), s, m, lo, hi)
  {
    ResetRow(users, s.email, s.code, s.password, s.at, m);
  }

  lemma UntouchedPays(users: seq<User>, o: Outcome, s: Step, m: string, lo: int, hi: int)
    requires !s.VerifyCode? && CodesKept(users, o.users, m)
    ensures Pays(users, o, s, m, lo, hi)
  {
  }

  lemma CodeStepPays(users: seq<User>, s: Step, m: string, lo: int, hi: int)
    requires AccountsOk(users) && Fresh(Row(users, m)) && (s.Register? || s.VerifyCode? || s.Resend? || s.Forgot?)
    ensures Pays(users, Run(users, s), s, m, lo, hi)
  {
    match s
    case Register(_, _, _, _, _, _) => RegisterPays(users, s, m, lo, hi);
    case VerifyCode(_, _, _) => VerifyPays(users, s, m, lo, hi);
    case Resend(_, _, _) => ResendPays(users, s, m, lo, hi);
    case Forgot(_, _, _) => ForgotPays(users, s, m, lo, hi);
  }

  lemma StepPays(users: seq<User>, s: Step, m: string, lo: int, hi: int)
    requires AccountsOk(users) && Fresh(Row(users, m))
    ensures Pays(users, Run(users, s), s, m, lo, hi)
  {
    if s.Register? || s.VerifyCode? || s.Resend? || s.Forgot? {
      CodeStepPays(users, s, m, lo, hi);
    } else if s.CheckReset? {
      CheckPays(users, s, m, lo, hi);
    } else if s.ResetPassword? {
      ResetPays(users, s, m, lo, hi);
    } else if s.Link? || s.Unlink? {
      LinkStepRow(users, s, m);
      UntouchedPays(users, Run(users, s), s, m, lo, hi);
    } else {
      SignInStepRow(users, s, m);
      UntouchedPays(users, Run(users, s), s, m, lo, hi);
    }
  }

  // ---------------------------------------------------------------- the bound

  /** What a run has used and has left never exceeds what a span starts with. */
  predicate Within(steps: seq<Step>, m: string, now: int, lo: int, hi: int)
  {
    GuessesMet(steps, m, lo, hi) + Budget(Row(After(steps), m), now, lo, hi)
    <= MAX_ATTEMPTS + MAX_ATTEMPTS * Issues(lo, hi)
  }

  lemma WithinStep(steps: seq<Step>, s: Step, m: string, now: int, lo: int, hi: int)
    requires Within(steps, m, now, lo, hi) && now <= s.at
    ensures GuessesMet(steps, m, lo, hi) + Budget(Row(After(steps), m), s.at, lo, hi)
            <= MAX_ATTEMPTS + MAX_ATTEMPTS * Issues(lo, hi)
  {
    BudgetOverTime(Row(After(steps), m), now, s.at, lo, hi);
  }

  lemma NothingYet(m: string, now: int, lo: int, hi: int)
    ensures Within([], m, now, lo, hi)
  {
  }

  lemma {:induction false} WithinAlways(steps: seq<Step>, m: string, lo: int, hi: int)
    requires Chronological(steps) && steps != []
    ensures Within(steps, m, steps[|steps| - 1].at, lo, hi)
    decreases |steps|
  {
    var n := |steps| - 1;
    var before, s := steps[..n], steps[n];
    if n > 0 {
      WithinAlways(before, m, lo, hi);
      WithinStep(before, s, m, before[n - 1].at, lo, hi);
    } else {
      NothingYet(m, s.at, lo, hi);
    }
    RunKeepsAccounts(before);
    AlwaysFresh(before, m);
    StepPays(After(before), s, m, lo, hi);
  }

  lemma IssuesIn(lo: int, w: nat)
    ensures MAX_ATTEMPTS + MAX_ATTEMPTS * Issues(lo, lo + w) == MAX_ATTEMPTS * (w / COOLDOWN + 2)
  {
  }

  lemma WithinMeans(steps: seq<Step>, m: string, now: int, lo: int, w: nat)
    requires Within(steps, m, now, lo, lo + w)
    ensures GuessesMet(steps, m, lo, lo + w) <= 5 * (w / 60000 + 2)
  {
    IssuesIn(lo, w);
  }

  /**
   * In any period of w milliseconds a run holds at most 5 * (w / 60000 + 2) guesses that meet an
   * unexpired, unlocked code of one email.
   */
  lemma GuessBound(steps: seq<Step>, m: string, lo: int, w: nat)
    requires Chronological(steps)
    ensures GuessesMet(steps, m, lo, lo + w) <= 5 * (w / 60000 + 2)
  {
    var now := if steps == [] then lo else steps[|steps| - 1].at;
    if steps == [] { NothingYet(m, now, lo, lo + w); } else { WithinAlways(steps, m, lo, lo + w); }
    WithinMeans(steps, m, now, lo, w);
  }

  // ---------------------------------------------------------------- the bound is reached

  function WithGuesses(steps: seq<Step>, m: string, at: int, n: nat): seq<Step>
  {
    if n == 0 then steps else WithGuesses(steps, m, at, n - 1) + [VerifyCode(m, "wrong", at)]
  }

  /**
   * A registration a minute early, five wrong guesses at time 0, then k codes a minute apart, each guessed at
   * five times.
   */
  function Rounds(m: string, k: nat): seq<Step>
  {
    if k == 0 then WithGuesses([Register(m, None, Hash("h"), "right", "t", -COOLDOWN)], m, 0, MAX_ATTEMPTS)
    else WithGuesses(Rounds(m, k - 1) + [Resend(m, "right", (k - 1) * COOLDOWN)], m, (k - 1) * COOLDOWN, MAX_ATTEMPTS)
  }

  /** The code of m is out since time sent and has been guessed at; the run met so many guesses between 0 and w. */
  predicate Reached(steps: seq<Step>, m: string, w: int, sent: int, attempts: nat, met: nat)
  {
    GuessesMet(steps, m, 0, w) == met && Guessable(Row(After(steps), m), m, sent, attempts)
  }

  predicate Guessable(row: Option<User>, m: string, sent: int, attempts: nat)
  {
    row.Some? && row.value.email == m && !row.value.emailVerified
    && row.value.verification == CodeSlot(Some("right"), Some(sent + CODE_TTL), false, attempts, Some(sent))
  }

  lemma OneMore(steps: seq<Step>, s: Step, m: string, w: int)
    ensures After(steps + [s]) == Run(After(steps), s).users
    ensures GuessesMet(steps + [s], m, 0, w) == GuessesMet(steps, m, 0, w) + Met(Row(After(steps), m), s, m, 0, w)
  {
  }

  lemma GuessOnce(steps: seq<Step>, m: string, w: int, sent: int, attempts: nat, met: nat, at: int)
    requires Reached(steps, m, w, sent, attempts, met) && attempts < MAX_ATTEMPTS
    requires 0 <= at <= w && at <= sent + CODE_TTL
    ensures Reached(steps + [VerifyCode(m, "wrong", at)], m, w, sent, attempts + 1, met + 1)
  {
    OneMore(steps, VerifyCode(m, "wrong", at), m, w);
    RunKeepsAccounts(steps);
    VerifyRow(After(steps), m, "wrong", at, m);
  }

  lemma Opening(m: string, w: nat)
    ensures Reached([Register(m, None, Hash("h"), "right", "t", -COOLDOWN)], m, w, -COOLDOWN, 0, 0)
  {
  }

  lemma NewCode(steps: seq<Step>, m: string, w: int, sent: int, met: nat, at: int)
    requires Reached(steps, m, w, sent, MAX_ATTEMPTS, met) && sent + COOLDOWN <= at
    ensures Reached(steps + [Resend(m, "right", at)], m, w, at, 0, met)
  {
    OneMore(steps, Resend(m, "right", at), m, w);
    RunKeepsAccounts(steps);
    ResendRow(After(steps), m, "right", at, m);
  }

  /** R(run, sent, attempts, met) is kept by a wrong guess and by a new code as long as time allows. */
  ghost predicate Plays(R: (seq<Step>, int, nat, nat) -> bool, m: string, w: nat)
  {
    && R([Register(m, None, Hash("h"), "right", "t", -COOLDOWN)], -COOLDOWN, 0, 0)
    && (forall run, sent, attempts: nat, met: nat, at ::
          R(run, sent, attempts, met) && attempts < MAX_ATTEMPTS && 0 <= at <= w && at <= sent + CODE_TTL
          ==> R(run + [VerifyCode(m, "wrong", at)], sent, attempts + 1, met + 1))
    && (forall run, sent, met: nat, at ::
          R(run, sent, MAX_ATTEMPTS, met) && sent + COOLDOWN <= at ==> R(run + [Resend(m, "right", at)], at, 0, met))
  }

  lemma {:induction false} GuessMany(R: (seq<Step>, int, nat, nat) -> bool, steps: seq<Step>, m: string, w: nat,
                                     sent: int, met: nat, at: int, n: nat)
    requires Plays(R, m, w) && R(steps, sent, 0, met) && n <= MAX_ATTEMPTS && 0 <= at <= w && at <= sent + CODE_TTL
    ensures R(WithGuesses(steps, m, at, n), sent, n, met + n)
  {
    if n > 0 { GuessMany(R, steps, m, w, sent, met, at, n - 1); }
  }

  lemma {:induction false} RoundsReach(R: (seq<Step>, int, nat, nat) -> bool, m: string, k: nat, w: nat)
    requires Plays(R, m, w) && (k - 1) * COOLDOWN <= w
    ensures R(Rounds(m, k), (k - 1) * COOLDOWN, MAX_ATTEMPTS, MAX_ATTEMPTS * (k + 1))
  {
    if k == 0 {
      GuessMany(R, [Register(m, None, Hash("h"), "right", "t", -COOLDOWN)], m, w, -COOLDOWN, 0, 0, MAX_ATTEMPTS);
    } else {
      var at := (k - 1) * COOLDOWN;
      RoundsReach(R, m, k - 1, w);
      assert R(Rounds(m, k - 1) + [Resend(m, "right", at)], at, 0, MAX_ATTEMPTS * k);
      GuessMany(R, Rounds(m, k - 1) + [Resend(m, "right", at)], m, w, at, MAX_ATTEMPTS * k, at, MAX_ATTEMPTS);
    }
  }

  predicate UpTo(steps: seq<Step>, now: int)
  {
    Chronological(steps) && forall s <- steps :: s.at <= now
  }

  lemma {:induction false} GuessesInOrder(steps: seq<Step>, m: string, now: int, at: int, n: nat)
    requires UpTo(steps, now) && now <= at
    ensures UpTo(WithGuesses(steps, m, at, n), at)
  {
    if n > 0 { GuessesInOrder(steps, m, now, at, n - 1); }
  }

  lemma {:induction false} RoundsInOrder(m: string, k: nat)
    ensures UpTo(Rounds(m, k), if k == 0 then 0 else (k - 1) * COOLDOWN)
  {
    if k == 0 {
      GuessesInOrder([Register(m, None, Hash("h"), "right", "t", -COOLDOWN)], m, -COOLDOWN, 0, MAX_ATTEMPTS);
    } else {
      var at := (k - 1) * COOLDOWN;
      RoundsInOrder(m, k - 1);
      GuessesInOrder(Rounds(m, k - 1) + [Resend(m, "right", at)], m, at, at, MAX_ATTEMPTS);
    }
  }

  lemma RoundsMeet(m: string, k: nat, w: nat)
    requires (k - 1) * COOLDOWN <= w
    ensures GuessesMet(Rounds(m, k), m, 0, w) == MAX_ATTEMPTS * (k + 1)
  {
    var R := (run: seq<Step>, sent: int, attempts: nat, met: nat) => Reached(run, m, w, sent, attempts, met);
    Opening(m, w);
    forall run, sent, attempts: nat, met: nat, at
      | R(run, sent, attempts, met) && attempts < MAX_ATTEMPTS && 0 <= at <= w && at <= sent + CODE_TTL
      ensures R(run + [VerifyCode(m, "wrong", at)], sent, attempts + 1, met + 1)
    {
      GuessOnce(run, m, w, sent, attempts, met, at);
    }
    forall run, sent, met: nat, at | R(run, sent, MAX_ATTEMPTS, met) && sent + COOLDOWN <= at
      ensures R(run + [Resend(m, "right", at)], at, 0, met)
    {
      NewCode(run, m, w, sent, met, at);
    }
    RoundsReach(R, m, k, w);
  }

  lemma RoundsChronological(m: string, k: nat)
    ensures Chronological(Rounds(m, k))
  {
    RoundsInOrder(m, k);
  }

  /** For every w some run reaches the bound, so no smaller one holds. */
  lemma GuessBoundIsSharp(m: string, w: nat, k: nat)
    requires k == w / 60000 + 1
    ensures Chronological(Rounds(m, k))
    ensures GuessesMet(Rounds(m, k), m, 0, w) == 5 * (w / 60000 + 2)
  {
    RoundsMeet(m, k, w);
    RoundsChronological(m, k);
  }
}
