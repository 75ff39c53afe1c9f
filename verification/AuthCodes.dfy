/**
 * Histories of verification and reset codes: what a run has issued, guessed and accepted decides
 * what happens next.
 */
module AuthCodes {
  import opened Prelude
  import opened Auth
  import opened AuthAccounts
  import opened AuthRows

  // ---------------------------------------------------------------- what a history has issued

  /** A step of a run and what it answered. */
  datatype Entry = Entry(step: Step, reply: Reply)

  function Log(steps: seq<Step>): (log: seq<Entry>)
    ensures |log| == |steps|
  {
    if steps == [] then []
    else
      var before, s := steps[..|steps| - 1], steps[|steps| - 1];
      Log(before) + [Entry(s, Run(After(before), s).reply)]
  }

  predicate IssuesCode(e: Entry, m: string)
  {
    (e.step.Register? || e.step.Resend?) && e.step.email == m && e.reply.Done?
  }

  predicate WrongGuess(e: Entry, m: string)
  {
    e.step.VerifyCode? && e.step.email == m && e.reply == Refused(InvalidCode)
  }

  predicate AcceptsCode(e: Entry, m: string)
  {
    e.step.VerifyCode? && e.step.email == m && e.reply.Done?
  }

  predicate IssuesReset(e: Entry, m: string)
  {
    e.step.Forgot? && e.step.email == m && e.reply.Done?
  }

  predicate WrongReset(e: Entry, m: string)
  {
    e.step.CheckReset? && e.step.email == m && e.reply in {Refused(InvalidCode), Refused(AttemptsExhausted)}
  }

  predicate ChangesPassword(e: Entry, m: string)
  {
    e.step.ResetPassword? && e.step.email == m && e.reply.Done?
  }

  /** An issued code: the index of the step that issued it, when, and the wrong guesses since. */
  datatype Issue = Issue(index: nat, code: string, at: int, wrong: nat)

  function Bumped(i: Option<Issue>): Option<Issue>
  {
    match i case Some(x) => Some(x.(wrong := x.wrong + 1)) case None => None
  }

  /** The last verification code a run issued for an email. */
  function LastIssue(log: seq<Entry>, m: string): Option<Issue>
  {
    if log == [] then None else NextIssue(LastIssue(log[..|log| - 1], m), |log| - 1, log[|log| - 1], m)
  }

  function NextIssue(last: Option<Issue>, n: nat, e: Entry, m: string): Option<Issue>
  {
    if IssuesCode(e, m) then Some(Issue(n, e.step.code, e.step.at, 0))
    else if WrongGuess(e, m) then Bumped(last)
    else last
  }

  /** The last reset code a run issued for an email, unless it changed the password since. */
  function LastReset(log: seq<Entry>, m: string): Option<Issue>
  {
    if log == [] then None else NextReset(LastReset(log[..|log| - 1], m), |log| - 1, log[|log| - 1], m)
  }

  function NextReset(last: Option<Issue>, n: nat, e: Entry, m: string): Option<Issue>
  {
    if IssuesReset(e, m) then Some(Issue(n, e.step.code, e.step.at, 0))
    else if ChangesPassword(e, m) then None
    else if WrongReset(e, m) then Bumped(last)
    else last
  }

  function AcceptCount(log: seq<Entry>, m: string): nat
  {
    if log == [] then 0 else AcceptCount(log[..|log| - 1], m) + if AcceptsCode(log[|log| - 1], m) then 1 else 0
  }

  // ---------------------------------------------------------------- the table says what the history says

  /** The columns an issue leaves in the table. */
  function SlotOf(i: Issue): CodeSlot
  {
    CodeSlot(Some(i.code), Some(i.at + CODE_TTL), false, i.wrong, Some(i.at))
  }

  predicate CodeTells(row: Option<User>, issue: Option<Issue>, accepts: nat)
  {
    match row
    case None => issue == None && accepts == 0
    case Some(u) =>
      if u.emailVerified then accepts <= 1
      else accepts == 0 && if issue.None? then u.verification.code == None else u.verification == SlotOf(issue.value)
  }

  predicate ResetTells(row: Option<User>, reset: Option<Issue>)
  {
    match row
    case None => reset == None
    case Some(u) => if reset.None? then u.reset.code == None else u.reset == SlotOf(reset.value)
  }

  predicate RowTells(steps: seq<Step>, m: string)
  {
    && CodeTells(Row(After(steps), m), LastIssue(Log(steps), m), AcceptCount(Log(steps), m))
    && ResetTells(Row(After(steps), m), LastReset(Log(steps), m))
  }

  /** A step keeps the row of an email telling what the history tells. */
  predicate Telling(users: seq<User>, s: Step, o: Outcome, n: nat, m: string, issue: Option<Issue>, accepts: nat,
                    reset: Option<Issue>)
  {
    CodeTells(Row(users, m), issue, accepts) && ResetTells(Row(users, m), reset) ==>
      && CodeTells(Row(o.users, m), NextIssue(issue, n, Entry(s, o.reply), m),
                   accepts + if AcceptsCode(Entry(s, o.reply), m) then 1 else 0)
      && ResetTells(Row(o.users, m), NextReset(reset, n, Entry(s, o.reply), m))
  }

  lemma ResendTells(users: seq<User>, s: Step, n: nat, m: string, issue: Option<Issue>, accepts: nat,
                    reset: Option<Issue>)
    requires AccountsOk(users) && s.Resend?
    ensures Telling(users, s, Resent(users, s.email, s.code, s.at), n, m, issue, accepts, reset)
  {
    ResendRow(users, s.email, s.code, s.at, m);
  }

  lemma ForgotTells(users: seq<User>, s: Step, n: nat, m: string, issue: Option<Issue>, accepts: nat,
                    reset: Option<Issue>)
    requires AccountsOk(users) && s.Forgot?
    ensures Telling(users, s, Forgotten(users, s.email, s.code, s.at), n, m, issue, accepts, reset)
  {
    ForgotRow(users, s.email, s.code, s.at, m);
  }

  lemma RegisterTells(users: seq<User>, s: Step, n: nat, m: string, issue: Option<Issue>, accepts: nat,
                      reset: Option<Issue>)
    requires AccountsOk(users) && s.Register?
    ensures Telling(users, s, Registered(users, s.email, s.username, s.password, s.code, s.token, s.at), n, m, issue,
                    accepts, reset)
  {
    RegisterRow(users, s.email, s.username, s.password, s.code, s.token, s.at, m);
  }

  /** What VerifyRow says of one row, and why it keeps telling. */
  lemma VerifiedRowTells(row: Option<User>, next: Option<User>, s: Step, reply: Reply, n: nat, m: string,
                         issue: Option<Issue>, accepts: nat)
    requires s.VerifyCode? && CodeTells(row, issue, accepts) && (row.Some? ==> row.value.email == m)
    requires s.email == m ==> (reply.Done? ==> row.Some? && !row.value.emailVerified)
    requires next == if reply.Done? && m == s.email then Some(Accepted(row.value))
                     else if reply == Refused(InvalidCode) && row.Some? then Some(GuessedRow(row.value, s.email))
                     else row
    ensures CodeTells(next, NextIssue(issue, n, Entry(s, reply), m),
                      accepts + if AcceptsCode(Entry(s, reply), m) then 1 else 0)
  {
  }

  lemma VerifyTells(users: seq<User>, s: Step, n: nat, m: string, issue: Option<Issue>, accepts: nat,
                    reset: Option<Issue>)
    requires AccountsOk(users) && s.VerifyCode?
    ensures Telling(users, s, VerifiedByCode(users, s.email, s.code, s.at), n, m, issue, accepts, reset)
  {
    var o := VerifiedByCode(users, s.email, s.code, s.at);
    VerifyRow(users, s.email, s.code, s.at, m);
    RowHasEmail(users, m);
    if CodeTells(Row(users, m), issue, accepts) {
      VerifiedRowTells(Row(users, m), Row(o.users, m), s, o.reply, n, m, issue, accepts);
    }
  }

  lemma CheckedRowTells(row: Option<User>, next: Option<User>, s: Step, reply: Reply, n: nat, m: string,
                        reset: Option<Issue>)
    requires s.CheckReset? && ResetTells(row, reset)
    requires s.email == m ==> (reply in {Refused(InvalidCode), Refused(AttemptsExhausted)}
                               <==> !ResetMatches(row, s.code))
    requires next == if m == s.email && row.Some? && !ResetMatches(row, s.code) then Some(ResetGuessed(row.value))
                     else row
    ensures ResetTells(next, NextReset(reset, n, Entry(s, reply), m))
  {
  }

  lemma CheckTells(users: seq<User>, s: Step, n: nat, m: string, issue: Option<Issue>, accepts: nat,
                   reset: Option<Issue>)
    requires AccountsOk(users) && s.CheckReset?
    ensures Telling(users, s, ResetCodeChecked(users, s.email, s.code, s.at), n, m, issue, accepts, reset)
  {
    var o := ResetCodeChecked(users, s.email, s.code, s.at);
    CheckRow(users, s.email, s.code, s.at, m);
    if ResetTells(Row(users, m), reset) {
      CheckedRowTells(Row(users, m), Row(o.users, m), s, o.reply, n, m, reset);
    }
  }

  lemma ResetTellsToo(users: seq<User>, s: Step, n: nat, m: string, issue: Option<Issue>, accepts: nat,
                      reset: Option<Issue>)
    requires AccountsOk(users) && s.ResetPassword?
    ensures Telling(users, s, PasswordReset(users, s.email, s.code, s.password, s.at), n, m, issue, accepts, reset)
  {
    ResetRow(users, s.email, s.code, s.password, s.at, m);
  }

  lemma OthersTell(users: seq<User>, s: Step, o: Outcome, n: nat, m: string, issue: Option<Issue>, accepts: nat,
                   reset: Option<Issue>)
    requires AccountsOk(users) && (s.VerifyToken? || s.SignIn? || s.Link? || s.Unlink?)
    requires CodesKept(users, o.users, m)
    ensures Telling(users, s, o, n, m, issue, accepts, reset)
  {
  }

  lemma CodeStepTells(users: seq<User>, s: Step, n: nat, m: string, issue: Option<Issue>, accepts: nat,
                      reset: Option<Issue>)
    requires AccountsOk(users) && (s.Register? || s.VerifyCode? || s.Resend? || s.Forgot?)
    ensures Telling(users, s, Run(users, s), n, m, issue, accepts, reset)
  {
    match s
    case Register(_, _, _, _, _, _) => RegisterTells(users, s, n, m, issue, accepts, reset);
    case VerifyCode(_, _, _) => VerifyTells(users, s, n, m, issue, accepts, reset);
    case Resend(_, _, _) => ResendTells(users, s, n, m, issue, accepts, reset);
    case Forgot(_, _, _) => ForgotTells(users, s, n, m, issue, accepts, reset);
  }

  lemma StepTells(users: seq<User>, s: Step, n: nat, m: string, issue: Option<Issue>, accepts: nat,
                  reset: Option<Issue>)
    requires AccountsOk(users)
    ensures Telling(users, s, Run(users, s), n, m, issue, accepts, reset)
  {
    if s.Register? || s.VerifyCode? || s.Resend? || s.Forgot? {
      CodeStepTells(users, s, n, m, issue, accepts, reset);
    } else if s.CheckReset? {
      CheckTells(users, s, n, m, issue, accepts, reset);
    } else if s.ResetPassword? {
      ResetTellsToo(users, s, n, m, issue, accepts, reset);
    } else if s.Link? || s.Unlink? {
      LinkStepRow(users, s, m);
      OthersTell(users, s, Run(users, s), n, m, issue, accepts, reset);
    } else {
      SignInStepRow(users, s, m);
      OthersTell(users, s, Run(users, s), n, m, issue, accepts, reset);
    }
  }

  lemma {:induction false} HistoryTells(steps: seq<Step>, m: string)
    ensures RowTells(steps, m)
    decreases |steps|
  {
    if steps != [] {
      var n := |steps| - 1;
      HistoryTells(steps[..n], m);
      RunKeepsAccounts(steps[..n]);
      var log := Log(steps[..n]);
      assert Log(steps)[..n] == log;
      StepTells(After(steps[..n]), steps[n], n, m, LastIssue(log, m), AcceptCount(log, m), LastReset(log, m));
    } else {
      NoRow([], m);
    }
  }

  // ---------------------------------------------------------------- acceptance

  /**
   * A verification code is accepted exactly when the email is still unverified and the code is the
   * last one issued for it, at most ten minutes old and with fewer than five wrong guesses since.
   */
  lemma AcceptedExactly(steps: seq<Step>, m: string, code: string, at: int)
    ensures var row, issue := Row(After(steps), m), LastIssue(Log(steps), m);
            VerifiedByCode(After(steps), m, code, at).reply.Done? <==>
              && row.Some? && !row.value.emailVerified
              && issue.Some? && issue.value.code == code && at <= issue.value.at + 600000
              && issue.value.wrong < 5
  {
    HistoryTells(steps, m);
    RunKeepsAccounts(steps);
    VerifyRow(After(steps), m, code, at, m);
  }

  /**
   * A reset code changes the password exactly when it is the last one issued for the email and has
   * not changed it before, at most ten minutes old and with fewer than five wrong checks since.
   */
  lemma ResetExactly(steps: seq<Step>, m: string, code: string, password: Hash, at: int)
    ensures var issue := LastReset(Log(steps), m);
            PasswordReset(After(steps), m, code, password, at).reply.Done? <==>
              issue.Some? && issue.value.code == code && at <= issue.value.at + 600000
                && issue.value.wrong < 5
  {
    HistoryTells(steps, m);
    RunKeepsAccounts(steps);
    ResetRow(After(steps), m, code, password, at, m);
  }

  // ---------------------------------------------------------------- the same, by positions in the run

  /** The wrong guesses of a verification code for an email among entries j to k. */
  function WrongGuesses(log: seq<Entry>, m: string, j: nat, k: nat): nat
    requires j <= k <= |log|
    decreases k
  {
    if j == k then 0 else WrongGuesses(log, m, j, k - 1) + if WrongGuess(log[k - 1], m) then 1 else 0
  }

  function WrongResets(log: seq<Entry>, m: string, j: nat, k: nat): nat
    requires j <= k <= |log|
    decreases k
  {
    if j == k then 0 else WrongResets(log, m, j, k - 1) + if WrongReset(log[k - 1], m) then 1 else 0
  }

  /**
   * Entry j issued the code that entry k uses: same code, in time, fewer than five wrong guesses and no newer
   * code between.
   */
  predicate UsesIssueOf(log: seq<Entry>, m: string, j: nat, k: nat)
  {
    && j < k < |log| && IssuesCode(log[j], m) && AcceptsCode(log[k], m)
    && log[j].step.code == log[k].step.code && log[k].step.at <= log[j].step.at + 600000
    && WrongGuesses(log, m, j + 1, k) < 5
    && forall i :: j < i < k ==> !IssuesCode(log[i], m)
  }

  predicate UsesResetOf(log: seq<Entry>, m: string, j: nat, k: nat)
  {
    && j < k < |log| && IssuesReset(log[j], m) && ChangesPassword(log[k], m)
    && log[j].step.code == log[k].step.code && log[k].step.at <= log[j].step.at + 600000
    && WrongResets(log, m, j + 1, k) < 5
    && forall i :: j < i < k ==> !IssuesReset(log[i], m) && !ChangesPassword(log[i], m)
  }

  lemma {:induction false} IssueIsThere(log: seq<Entry>, m: string, n: nat)
    requires n <= |log|
    ensures LastIssue(log[..n], m).Some? ==>
              var issue := LastIssue(log[..n], m).value;
              && issue.index < n && IssuesCode(log[issue.index], m)
              && log[issue.index].step.code == issue.code && log[issue.index].step.at == issue.at
              && issue.wrong == WrongGuesses(log, m, issue.index + 1, n)
              && forall i :: issue.index < i < n ==> !IssuesCode(log[i], m)
  {
    if n > 0 {
      IssueIsThere(log, m, n - 1);
      assert log[..n][..n - 1] == log[..n - 1];
    }
  }

  lemma {:induction false} ResetIsThere(log: seq<Entry>, m: string, n: nat)
    requires n <= |log|
    ensures LastReset(log[..n], m).Some? ==>
              var issue := LastReset(log[..n], m).value;
              && issue.index < n && IssuesReset(log[issue.index], m)
              && log[issue.index].step.code == issue.code && log[issue.index].step.at == issue.at
              && issue.wrong == WrongResets(log, m, issue.index + 1, n)
              && forall i :: issue.index < i < n ==> !IssuesReset(log[i], m) && !ChangesPassword(log[i], m)
  {
    if n > 0 {
      ResetIsThere(log, m, n - 1);
      assert log[..n][..n - 1] == log[..n - 1];
    }
  }

  lemma LogEnd(steps: seq<Step>)
    requires steps != []
    ensures var before, s := steps[..|steps| - 1], steps[|steps| - 1];
            Log(steps) == Log(before) + [Entry(s, Run(After(before), s).reply)]
  {
  }

  lemma {:induction false} LogShortened(steps: seq<Step>, k: nat)
    requires k <= |steps|
    ensures Log(steps)[..k] == Log(steps[..k])
    decreases |steps|
  {
    var n := |steps| - 1;
    if k <= n {
      LogEnd(steps);
      LogShortened(steps[..n], k);
      assert steps[..n][..k] == steps[..k];
    } else {
      assert steps[..k] == steps;
    }
  }

  /** What a run logged before step k, and for step k. */
  lemma LogPrefix(steps: seq<Step>, k: nat)
    requires k < |steps|
    ensures Log(steps)[..k] == Log(steps[..k])
    ensures Log(steps)[k] == Entry(steps[k], Run(After(steps[..k]), steps[k]).reply)
  {
    LogShortened(steps, k);
    LogShortened(steps, k + 1);
    LogEnd(steps[..k + 1]);
    assert steps[..k + 1][..k] == steps[..k];
    assert Log(steps)[k] == Log(steps)[..k + 1][k];
  }

  /** What the log says was answered is what the operation answered at that point of the run. */
  lemma VerifyLogged(steps: seq<Step>, m: string, k: nat)
    requires k < |steps| && AcceptsCode(Log(steps)[k], m)
    ensures Log(steps)[k].step == steps[k] && Log(steps)[..k] == Log(steps[..k])
    ensures VerifiedByCode(After(steps[..k]), m, steps[k].code, steps[k].at).reply.Done?
  {
    LogPrefix(steps, k);
  }

  lemma ResetLogged(steps: seq<Step>, m: string, k: nat)
    requires k < |steps| && ChangesPassword(Log(steps)[k], m)
    ensures Log(steps)[k].step == steps[k] && Log(steps)[..k] == Log(steps[..k])
    ensures PasswordReset(After(steps[..k]), m, steps[k].code, steps[k].password, steps[k].at).reply.Done?
  {
    LogPrefix(steps, k);
  }

  predicate InTime(issue: Option<Issue>, s: Step)
  {
    && (s.VerifyCode? || s.ResetPassword?)
    && issue.Some? && issue.value.code == s.code && s.at <= issue.value.at + 600000
    && issue.value.wrong < 5
  }

  lemma LastIssueUsed(log: seq<Entry>, m: string, k: nat)
    requires k < |log| && AcceptsCode(log[k], m) && InTime(LastIssue(log[..k], m), log[k].step)
    ensures UsesIssueOf(log, m, LastIssue(log[..k], m).value.index, k)
  {
    IssueIsThere(log, m, k);
  }

  lemma LastResetUsed(log: seq<Entry>, m: string, k: nat)
    requires k < |log| && ChangesPassword(log[k], m) && InTime(LastReset(log[..k], m), log[k].step)
    ensures UsesResetOf(log, m, LastReset(log[..k], m).value.index, k)
  {
    ResetIsThere(log, m, k);
  }

  /**
   * Whenever a run accepts a verification code, an earlier step issued that code for that email at
   * most ten minutes before, no newer one came since, and fewer than five wrong guesses did.
   */
  lemma AcceptedCodeWasIssued(steps: seq<Step>, m: string, k: nat)
    requires k < |steps| && AcceptsCode(Log(steps)[k], m)
    ensures var issue := LastIssue(Log(steps)[..k], m); issue.Some? && UsesIssueOf(Log(steps), m, issue.value.index, k)
  {
    VerifyLogged(steps, m, k);
    AcceptedExactly(steps[..k], m, steps[k].code, steps[k].at);
    LastIssueUsed(Log(steps), m, k);
  }

  lemma {:induction false} CountCovers(log: seq<Entry>, m: string, k: nat)
    requires k < |log| && AcceptsCode(log[k], m)
    ensures AcceptCount(log, m) >= AcceptCount(log[..k], m) + 1
  {
    var n := |log| - 1;
    if k < n {
      CountCovers(log[..n], m, k);
      assert log[..n][..k] == log[..k];
    }
  }

  lemma CountsBoth(log: seq<Entry>, m: string, i: nat, k: nat)
    requires i < k < |log| && AcceptsCode(log[i], m) && AcceptsCode(log[k], m)
    ensures AcceptCount(log, m) >= 2
  {
    CountCovers(log, m, k);
    CountCovers(log[..k], m, i);
  }

  lemma CountAtMostOne(steps: seq<Step>, m: string)
    ensures AcceptCount(Log(steps), m) <= 1
  {
    HistoryTells(steps, m);
  }

  /** No email ever has two codes accepted. */
  lemma AcceptedAtMostOnce(steps: seq<Step>, m: string, i: nat, k: nat)
    requires i < |steps| && k < |steps| && AcceptsCode(Log(steps)[i], m) && AcceptsCode(Log(steps)[k], m)
    ensures i == k
  {
    CountAtMostOne(steps, m);
    if i < k { CountsBoth(Log(steps), m, i, k); }
    if k < i { CountsBoth(Log(steps), m, k, i); }
  }

  /**
   * Whenever a run changes a password by reset code, an earlier forgot-password step issued that code
   * for that email at most ten minutes before; no newer code and no other change came between.
   */
  lemma ChangedPasswordWasForgotten(steps: seq<Step>, m: string, k: nat)
    requires k < |steps| && ChangesPassword(Log(steps)[k], m)
    ensures var issue := LastReset(Log(steps)[..k], m); issue.Some? && UsesResetOf(Log(steps), m, issue.value.index, k)
  {
    ResetLogged(steps, m, k);
    ResetExactly(steps[..k], m, steps[k].code, steps[k].password, steps[k].at);
    LastResetUsed(Log(steps), m, k);
  }

  /** Two password changes never use the same forgot-password step: the later uses one after the earlier change. */
  lemma EachChangeHasItsOwnForgot(log: seq<Entry>, m: string, i: nat, k: nat, fi: nat, fk: nat)
    requires i < k && UsesResetOf(log, m, fi, i) && UsesResetOf(log, m, fk, k)
    ensures fi < i < fk < k
  {
  }

  // ---------------------------------------------------------------- looking at a reset code first

  /** A step that issued a new reset code for the email, counted a wrong one, or changed the password. */
  predicate TouchesReset(e: Entry, m: string)
  {
    IssuesReset(e, m) || WrongReset(e, m) || ChangesPassword(e, m)
  }

  lemma NotTheReset(log: seq<Entry>, m: string)
    requires log != [] && !TouchesReset(log[|log| - 1], m)
    ensures LastReset(log, m) == LastReset(log[..|log| - 1], m)
  {
  }

  lemma {:induction false} ResetUntouched(log: seq<Entry>, n: nat, m: string)
    requires n <= |log| && forall i :: n <= i < |log| ==> !TouchesReset(log[i], m)
    ensures LastReset(log, m) == LastReset(log[..n], m)
  {
    var k := |log| - 1;
    if n <= k {
      ResetUntouched(log[..k], n, m);
      assert log[..k][..n] == log[..n];
      NotTheReset(log, m);
    } else {
      assert log[..n] == log;
    }
  }

  lemma StillTheLast(steps: seq<Step>, more: seq<Step>, m: string)
    requires forall i :: |steps| <= i < |steps + more| ==> !TouchesReset(Log(steps + more)[i], m)
    ensures LastReset(Log(steps + more), m) == LastReset(Log(steps), m)
  {
    assert (steps + more)[..|steps|] == steps;
    LogShortened(steps + more, |steps|);
    ResetUntouched(Log(steps + more), |steps|, m);
  }

  lemma GoodCheckMeans(steps: seq<Step>, m: string, code: string, at: int)
    requires ResetCodeChecked(After(steps), m, code, at).reply.Done?
    ensures ResetCodeChecked(After(steps), m, code, at).users == After(steps)
    ensures var issue := LastReset(Log(steps), m);
            issue.Some? && issue.value.code == code && issue.value.wrong < 5
  {
    HistoryTells(steps, m);
    RunKeepsAccounts(steps);
    CheckRow(After(steps), m, code, at, m);
  }

  lemma GoodCheckLogged(steps: seq<Step>, m: string, code: string, at: int)
    requires ResetCodeChecked(After(steps), m, code, at).reply.Done?
    requires ResetCodeChecked(After(steps), m, code, at).users == After(steps)
    ensures var next := steps + [CheckReset(m, code, at)];
            After(next) == After(steps) && LastReset(Log(next), m) == LastReset(Log(steps), m)
  {
    var next := steps + [CheckReset(m, code, at)];
    assert next[..|steps|] == steps;
    LogEnd(next);
    assert Log(next)[..|steps|] == Log(steps);
  }

  /**
   * A code that verifyResetCode finds good stays good: the check changes nothing, and whatever happens
   * before the same code resets the password, refused attempts included, only the ten minutes can stop
   * it, unless a new code was issued, a wrong one counted or the password reset in between.
   */
  lemma CheckedThenReset(steps: seq<Step>, m: string, code: string, at: int, more: seq<Step>, password: Hash,
                         later: int, checked: seq<Step>)
    requires ResetCodeChecked(After(steps), m, code, at).reply.Done? && checked == steps + [CheckReset(m, code, at)]
    requires forall i :: |checked| <= i < |checked + more| ==> !TouchesReset(Log(checked + more)[i], m)
    ensures After(checked) == After(steps)
    ensures LastReset(Log(steps), m).Some?
    ensures PasswordReset(After(checked + more), m, code, password, later).reply.Done?
            <==> later <= LastReset(Log(steps), m).value.at + 600000
  {
    GoodCheckMeans(steps, m, code, at);
    GoodCheckLogged(steps, m, code, at);
    StillTheLast(checked, more, m);
    ResetExactly(checked + more, m, code, password, later);
  }
}
