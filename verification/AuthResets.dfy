/**
 * How many guesses can meet a valid reset code: wrong checks are counted and bounded, refused
 * resets are not counted at all.
 */
module AuthResets {
  import opened Prelude
  import opened Auth
  import opened AuthAccounts
  import opened AuthRows
  import opened AuthCodes
  import opened AuthGuesses

  // ---------------------------------------------------------------- wrong checks

  /** The reset columns of an email; none before it has a row. */
  function ResetSlot(row: Option<User>): CodeSlot
  {
    if row.Some? then row.value.reset else NO_CODE
  }

  /** There is a reset code, unexpired and unlocked. */
  predicate ResetOpen(slot: CodeSlot, at: int)
  {
    slot.code.Some? && !Expired(slot.expiry, at) && slot.attempts < MAX_ATTEMPTS
  }

  /** A wrong check or reset while there is a code it could meet. */
  predicate MeetsReset(slot: CodeSlot, s: Step, m: string)
  {
    (s.CheckReset? || s.ResetPassword?) && s.email == m && ResetOpen(slot, s.at) && slot.code != Some(s.code)
  }

  function CheckMet(slot: CodeSlot, s: Step, m: string, lo: int, hi: int): nat
  {
    if lo <= s.at <= hi && s.CheckReset? && MeetsReset(slot, s, m) then 1 else 0
  }

  /** The wrong checks of a run between times lo and hi that meet an open reset code of m. */
  function ChecksMet(steps: seq<Step>, m: string, lo: int, hi: int): nat
    decreases |steps|
  {
    if steps == [] then 0
    else
      var before, s := steps[..|steps| - 1], steps[|steps| - 1];
      ChecksMet(before, m, lo, hi) + CheckMet(ResetSlot(Row(After(before), m)), s, m, lo, hi)
  }

  function Changed(s: Step, reply: Reply, m: string, lo: int, hi: int): nat
  {
    if lo <= s.at <= hi && ChangesPassword(Entry(s, reply), m) then 1 else 0
  }

  /** The password changes by reset code for m between times lo and hi. */
  function Changes(log: seq<Entry>, m: string, lo: int, hi: int): nat
  {
    if log == [] then 0
    else
      var last := log[|log| - 1];
      Changes(log[..|log| - 1], m, lo, hi) + Changed(last.step, last.reply, m, lo, hi)
  }

  /** How many wrong checks can still meet an open code up to hi if no password is changed. */
  function CheckBudget(slot: CodeSlot, now: int, lo: int, hi: int): nat
  {
    if now > hi then 0
    else if now < lo then MAX_ATTEMPTS + MAX_ATTEMPTS * Issues(lo, hi)
    else Tries(slot) + MAX_ATTEMPTS * Issues(NextIssueTime(slot, now), hi)
  }

  lemma CheckBudgetOverTime(slot: CodeSlot, now: int, later: int, lo: int, hi: int)
    requires now <= later
    ensures CheckBudget(slot, later, lo, hi) <= CheckBudget(slot, now, lo, hi)
  {
  }

  lemma ForgottenPays(slot: CodeSlot, code: string, at: int, lo: int, hi: int)
    requires !CoolingDown(slot, at)
    ensures CheckBudget(Issued(code, at), at, lo, hi) <= CheckBudget(slot, at, lo, hi)
  {
  }

  lemma CheckedPays(slot: CodeSlot, next: CodeSlot, s: Step, m: string, lo: int, hi: int)
    requires next == slot || (slot.code.Some? && next == slot.(attempts := slot.attempts + 1))
    requires s.CheckReset? && s.email == m && MeetsReset(slot, s, m) ==> next != slot
    ensures CheckBudget(next, s.at, lo, hi) + CheckMet(slot, s, m, lo, hi) <= CheckBudget(slot, s.at, lo, hi)
  {
  }

  /** A change frees the cooldown: at most one code more can be issued, and one try of the old one is used up. */
  lemma ChangePays(slot: CodeSlot, at: int, lo: int, hi: int)
    requires slot.code.Some? && slot.attempts < MAX_ATTEMPTS && slot.sentAt.Some? && slot.sentAt.value <= at
    ensures CheckBudget(CodeSlot(None, None, true, 0, None), at, lo, hi)
         <= CheckBudget(slot, at, lo, hi) + if lo <= at <= hi then MAX_ATTEMPTS - 1 else 0
  {
  }

  /** What a step adds to the wrong checks it takes from the budget; a password change adds at most four. */
  predicate PaysForChecks(users: seq<User>, o: Outcome, s: Step, m: string, lo: int, hi: int)
  {
    var before, after := ResetSlot(Row(users, m)), ResetSlot(Row(o.users, m));
    CheckBudget(after, s.at, lo, hi) + CheckMet(before, s, m, lo, hi)
    <= CheckBudget(before, s.at, lo, hi) + (MAX_ATTEMPTS - 1) * Changed(s, o.reply, m, lo, hi)
  }

  lemma SameSlotPays(users: seq<User>, o: Outcome, s: Step, m: string, lo: int, hi: int)
    requires !s.CheckReset? && ResetSlot(Row(o.users, m)) == ResetSlot(Row(users, m))
    ensures PaysForChecks(users, o, s, m, lo, hi)
  {
  }

  lemma ForgotStepPays(users: seq<User>, s: Step, m: string, lo: int, hi: int)
    requires AccountsOk(users) && s.Forgot?
    ensures PaysForChecks(users, Forgotten(users, s.email, s.code, s.at), s, m, lo, hi)
  {
    ForgotRow(users, s.email, s.code, s.at, m);
    var slot := ResetSlot(Row(users, m));
    if m == s.email && !CoolingDown(slot, s.at) { ForgottenPays(slot, s.code, s.at, lo, hi); }
  }

  lemma CheckStepPays(users: seq<User>, s: Step, m: string, lo: int, hi: int)
    requires AccountsOk(users) && s.CheckReset?
    ensures PaysForChecks(users, ResetCodeChecked(users, s.email, s.code, s.at), s, m, lo, hi)
  {
    var o := ResetCodeChecked(users, s.email, s.code, s.at);
    CheckRow(users, s.email, s.code, s.at, m);
    CheckedPays(ResetSlot(Row(users, m)), ResetSlot(Row(o.users, m)), s, m, lo, hi);
  }

  lemma ResetStepPays(users: seq<User>, s: Step, m: string, lo: int, hi: int)
    requires AccountsOk(users) && s.ResetPassword? && SentBy(Row(users, m), s.at)
    ensures PaysForChecks(users, PasswordReset(users, s.email, s.code, s.password, s.at), s, m, lo, hi)
  {
    ResetRow(users, s.email, s.code, s.password, s.at, m);
    var slot := ResetSlot(Row(users, m));
    if m == s.email && PasswordReset(users, s.email, s.code, s.password, s.at).reply.Done? {
      ChangePays(slot, s.at, lo, hi);
    }
  }

  /** The code that is out was issued by now. */
  predicate SentBy(row: Option<User>, now: int)
  {
    var slot := ResetSlot(row);
    slot.code.Some? ==> slot.sentAt.Some? && slot.sentAt.value <= now
  }

  lemma AlwaysSentBy(steps: seq<Step>, m: string, now: int)
    requires forall s <- steps :: s.at <= now
    ensures SentBy(Row(After(steps), m), now)
  {
    HistoryTells(steps, m);
    var issue := LastReset(Log(steps), m);
    assert Log(steps)[..|steps|] == Log(steps);
    ResetIsThere(Log(steps), m, |steps|);
    if issue.Some? {
      LogPrefix(steps, issue.value.index);
      assert steps[issue.value.index] in steps;
    }
  }

  lemma UntouchedSlot(row: Option<User>, next: Option<User>)
    requires CodesUntouched(row, next)
    ensures ResetSlot(next) == ResetSlot(row)
  {
  }

  lemma VerificationStepPays(users: seq<User>, s: Step, m: string, lo: int, hi: int)
    requires AccountsOk(users) && (s.VerifyCode? || s.Resend?)
    ensures PaysForChecks(users, Run(users, s), s, m, lo, hi)
  {
    if s.VerifyCode? {
      VerifyRow(users, s.email, s.code, s.at, m);
    } else {
      ResendRow(users, s.email, s.code, s.at, m);
    }
    SameSlotPays(users, Run(users, s), s, m, lo, hi);
  }

  lemma RegisterStepPays(users: seq<User>, s: Step, m: string, lo: int, hi: int)
    requires AccountsOk(users) && s.Register?
    ensures PaysForChecks(users, Run(users, s), s, m, lo, hi)
  {
    RegisterRow(users, s.email, s.username, s.password, s.code, s.token, s.at, m);
    SameSlotPays(users, Run(users, s), s, m, lo, hi);
  }

  lemma OtherStepPays(users: seq<User>, s: Step, m: string, lo: int, hi: int)
    requires AccountsOk(users) && (s.VerifyToken? || s.SignIn? || s.Link? || s.Unlink?)
    ensures PaysForChecks(users, Run(users, s), s, m, lo, hi)
  {
    if s.Link? || s.Unlink? { LinkStepRow(users, s, m); } else { SignInStepRow(users, s, m); }
    UntouchedSlot(Row(users, m), Row(Run(users, s).users, m));
    SameSlotPays(users, Run(users, s), s, m, lo, hi);
  }

  lemma StepPaysForChecks(users: seq<User>, s: Step, m: string, lo: int, hi: int)
    requires AccountsOk(users) && SentBy(Row(users, m), s.at)
    ensures PaysForChecks(users, Run(users, s), s, m, lo, hi)
  {
    match s
    case Register(_, _, _, _, _, _) => RegisterStepPays(users, s, m, lo, hi);
    case Forgot(_, _, _) => ForgotStepPays(users, s, m, lo, hi);
    case CheckReset(_, _, _) => CheckStepPays(users, s, m, lo, hi);
    case ResetPassword(_, _, _, _) => ResetStepPays(users, s, m, lo, hi);
    case VerifyCode(_, _, _) => VerificationStepPays(users, s, m, lo, hi);
    case Resend(_, _, _) => VerificationStepPays(users, s, m, lo, hi);
    case _ => OtherStepPays(users, s, m, lo, hi);
  }

  /** What a run has used and has left never exceeds what a span starts with and its password changes add. */
  predicate ChecksWithin(steps: seq<Step>, m: string, now: int, lo: int, hi: int)
  {
    ChecksMet(steps, m, lo, hi) + CheckBudget(ResetSlot(Row(After(steps), m)), now, lo, hi)
    <= MAX_ATTEMPTS + MAX_ATTEMPTS * Issues(lo, hi) + (MAX_ATTEMPTS - 1) * Changes(Log(steps), m, lo, hi)
  }

  lemma NoChecksYet(m: string, now: int, lo: int, hi: int)
    ensures ChecksWithin([], m, now, lo, hi)
  {
    NoRow([], m);
  }

  lemma OneStepOn(steps: seq<Step>, s: Step, m: string, now: int, lo: int, hi: int)
    requires ChecksWithin(steps, m, now, lo, hi) && now <= s.at
    requires PaysForChecks(After(steps), Run(After(steps), s), s, m, lo, hi)
    ensures ChecksWithin(steps + [s], m, s.at, lo, hi)
  {
    var all := steps + [s];
    assert all[..|steps|] == steps;
    LogEnd(all);
    assert Log(all)[..|steps|] == Log(steps);
    CheckBudgetOverTime(ResetSlot(Row(After(steps), m)), now, s.at, lo, hi);
  }

  lemma {:induction false} ChecksAlwaysWithin(steps: seq<Step>, m: string, lo: int, hi: int)
    requires Chronological(steps) && steps != []
    ensures ChecksWithin(steps, m, steps[|steps| - 1].at, lo, hi)
    decreases |steps|
  {
    var n := |steps| - 1;
    var before, s := steps[..n], steps[n];
    assert before + [s] == steps;
    if n > 0 { ChecksAlwaysWithin(before, m, lo, hi); } else { NoChecksYet(m, s.at, lo, hi); }
    RunKeepsAccounts(before);
    AlwaysSentBy(before, m, s.at);
    StepPaysForChecks(After(before), s, m, lo, hi);
    OneStepOn(before, s, m, if n > 0 then before[n - 1].at else s.at, lo, hi);
  }

  lemma WithinBound(steps: seq<Step>, m: string, now: int, lo: int, w: nat)
    requires ChecksWithin(steps, m, now, lo, lo + w)
    ensures ChecksMet(steps, m, lo, lo + w)
         <= 5 * (w / 60000 + 2) + 4 * Changes(Log(steps), m, lo, lo + w)
  {
    IssuesIn(lo, w);
  }

  /**
   * In any period of w milliseconds a run holds at most 5 * (w / 60000 + 2) wrong checks that meet an
   * open reset code of one email, and four more for each password change by reset code in the period.
   */
  lemma CheckBound(steps: seq<Step>, m: string, lo: int, w: nat)
    requires Chronological(steps)
    ensures ChecksMet(steps, m, lo, lo + w)
         <= 5 * (w / 60000 + 2) + 4 * Changes(Log(steps), m, lo, lo + w)
  {
    var now := if steps == [] then lo else steps[|steps| - 1].at;
    if steps == [] { NoChecksYet(m, now, lo, lo + w); } else { ChecksAlwaysWithin(steps, m, lo, lo + w); }
    WithinBound(steps, m, now, lo, w);
  }

  // ---------------------------------------------------------------- refused resets

  function ResetMet(slot: CodeSlot, s: Step, m: string): nat
  {
    if s.ResetPassword? && MeetsReset(slot, s, m) then 1 else 0
  }

  /** The refused resets of a run that meet an open reset code of m. */
  function ResetsMet(steps: seq<Step>, m: string): nat
    decreases |steps|
  {
    if steps == [] then 0
    else
      var before, s := steps[..|steps| - 1], steps[|steps| - 1];
      ResetsMet(before, m) + ResetMet(ResetSlot(Row(After(before), m)), s, m)
  }

  /** A registration, a reset code, and n resets with another code, all at time 0. */
  function WrongResetRun(m: string, n: nat): seq<Step>
  {
    if n == 0 then [Register(m, None, Hash("h"), "v", "t", 0)] + [Forgot(m, "right", 0)]
    else WrongResetRun(m, n - 1) + [ResetPassword(m, "wrong", Hash("g"), 0)]
  }

  /** A reset with a code that does not match leaves the table alone, the attempts included. */
  lemma WrongResetLeaves(users: seq<User>, m: string, code: string, password: Hash, at: int)
    requires AccountsOk(users) && !ResetMatches(Row(users, m), code)
    ensures PasswordReset(users, m, code, password, at) == Outcome(users, Refused(InvalidCode))
  {
    ResetFound(users, m, code);
  }

  lemma OnStep(steps: seq<Step>, s: Step, m: string)
    ensures After(steps + [s]) == Run(After(steps), s).users
    ensures ResetsMet(steps + [s], m) == ResetsMet(steps, m) + ResetMet(ResetSlot(Row(After(steps), m)), s, m)
  {
    assert (steps + [s])[..|steps|] == steps;
  }

  /** The run met n refused resets while the code was out. */
  predicate Out(steps: seq<Step>, m: string, n: nat)
  {
    ResetSlot(Row(After(steps), m)) == Issued("right", 0) && ResetsMet(steps, m) == n
  }

  lemma OneWrongReset(steps: seq<Step>, m: string, n: nat)
    requires Out(steps, m, n)
    ensures Out(steps + [ResetPassword(m, "wrong", Hash("g"), 0)], m, n + 1)
  {
    OnStep(steps, ResetPassword(m, "wrong", Hash("g"), 0), m);
    RunKeepsAccounts(steps);
    WrongResetLeaves(After(steps), m, "wrong", Hash("g"), 0);
  }

  lemma Registers(m: string, first: seq<Step>)
    requires first == [Register(m, None, Hash("h"), "v", "t", 0)]
    ensures Row(After(first), m).Some? && Row(After(first), m).value.reset == NO_CODE && ResetsMet(first, m) == 0
  {
    assert [] + first == first;
    OnStep([], first[0], m);
    NoRow([], m);
    RegisterRow([], m, None, Hash("h"), "v", "t", 0, m);
  }

  lemma CodeIsOut(m: string)
    ensures Out([Register(m, None, Hash("h"), "v", "t", 0)] + [Forgot(m, "right", 0)], m, 0)
  {
    var first := [Register(m, None, Hash("h"), "v", "t", 0)];
    Registers(m, first);
    OnStep(first, Forgot(m, "right", 0), m);
    RunKeepsAccounts(first);
    ForgotRow(After(first), m, "right", 0, m);
  }

  /** What holds at first and is kept by each wrong reset holds after n of them. */
  lemma {:induction false} ManyResets(P: (seq<Step>, nat) -> bool, m: string, n: nat)
    requires P([Register(m, None, Hash("h"), "v", "t", 0)] + [Forgot(m, "right", 0)], 0)
    requires forall steps, k: nat :: P(steps, k) ==> P(steps + [ResetPassword(m, "wrong", Hash("g"), 0)], k + 1)
    ensures P(WrongResetRun(m, n), n)
  {
    if n > 0 { ManyResets(P, m, n - 1); }
  }

  lemma {:induction false} AllAtOnce(m: string, n: nat)
    ensures forall s <- WrongResetRun(m, n) :: s.at == 0
  {
    if n > 0 { AllAtOnce(m, n - 1); }
  }

  lemma StillOut(m: string, n: nat)
    ensures Out(WrongResetRun(m, n), m, n)
  {
    var P := (steps: seq<Step>, k: nat) => Out(steps, m, k);
    CodeIsOut(m);
    forall steps, k: nat | P(steps, k) ensures P(steps + [ResetPassword(m, "wrong", Hash("g"), 0)], k + 1) {
      OneWrongReset(steps, m, k);
    }
    ManyResets(P, m, n);
  }

  /**
   * The limit of five counts checks only: for every n some run meets one open code with n refused
   * resets at one instant.
   */
  lemma RefusedResetsAreNotCounted(m: string, n: nat)
    ensures Out(WrongResetRun(m, n), m, n)
    ensures forall s <- WrongResetRun(m, n) :: s.at == 0
  {
    StillOut(m, n);
    AllAtOnce(m, n);
  }
}
