/** Each step of the account service, seen from the row of one email. */
module AuthRows {
  import opened Prelude
  import opened Auth
  import opened AuthAccounts

  // ---------------------------------------------------------------- the row of an email

  function Row(users: seq<User>, m: string): Option<User>
  {
    match ByEmail(users, m) case Some(i) => Some(users[i]) case None => None
  }

  lemma RowIs(users: seq<User>, i: nat)
    requires AccountsOk(users) && i < |users|
    ensures ByEmail(users, users[i].email) == Some(i)
  {
    assert users[i] in users;
    var j := ByEmail(users, users[i].email).value;
    if j < i { SharedEmail(users[j], users[i]); }
    if i < j { SharedEmail(users[i], users[j]); }
  }

  lemma SharedEmail(u: User, v: User)
    requires u.email == v.email
    ensures !Apart(u, v)
  {
  }

  lemma RowHasEmail(users: seq<User>, m: string)
    ensures Row(users, m).Some? ==> Row(users, m).value.email == m
  {
  }

  lemma NoRow(users: seq<User>, m: string)
    requires forall i :: 0 <= i < |users| ==> users[i].email != m
    ensures Row(users, m) == None
  {
  }

  lemma RowAfterUpdate(users: seq<User>, i: nat, u: User, m: string)
    requires i < |users| && AccountsOk(users) && AccountsOk(users[i := u]) && u.email == users[i].email
    ensures Row(users[i := u], m) == if m == users[i].email then Some(u) else Row(users, m)
    ensures Row(users, users[i].email) == Some(users[i])
  {
    var next := users[i := u];
    RowIs(users, i);
    RowIs(next, i);
    if m != users[i].email {
      match ByEmail(users, m) {
        case Some(j) => RowIs(next, j);
        case None =>
          forall j | 0 <= j < |next| ensures next[j].email != m { assert users[j] in users; }
          NoRow(next, m);
      }
    }
  }

  lemma RowAfterAppend(users: seq<User>, u: User, m: string)
    requires AccountsOk(users) && AccountsOk(users + [u])
    ensures Row(users + [u], m) == if m == u.email then Some(u) else Row(users, m)
  {
    var next := users + [u];
    RowIs(next, |users|);
    if m != u.email {
      match ByEmail(users, m) {
        case Some(j) => RowIs(next, j);
        case None =>
          forall j | 0 <= j < |next| ensures next[j].email != m {
            if j < |users| { assert users[j] in users; }
          }
          NoRow(next, m);
      }
    }
  }

  lemma RowAfterGuess(users: seq<User>, email: string, m: string)
    requires AccountsOk(users)
    ensures Row(Guessed(users, email), m)
         == match Row(users, m) case Some(u) => Some(GuessedRow(u, email)) case None => None
  {
    GuessKeeps(users, email);
    var next := Guessed(users, email);
    match ByEmail(users, m) {
      case Some(j) => RowIs(next, j);
      case None =>
        forall j | 0 <= j < |next| ensures next[j].email != m { assert users[j] in users; }
        NoRow(next, m);
    }
  }

  // ---------------------------------------------------------------- each step, seen from one email

  function ResendWorks(row: Option<User>, at: int): bool
  {
    row.Some? && !row.value.emailVerified && !CoolingDown(row.value.verification, at)
  }

  lemma ResendRow(users: seq<User>, e: string, code: string, at: int, m: string)
    requires AccountsOk(users)
    ensures var r := Resent(users, e, code, at);
            && (r.reply.Done? <==> ResendWorks(Row(users, e), at))
            && Row(r.users, m) == if m == e && r.reply.Done?
                                  then Some(Row(users, e).value.(verification := Issued(code, at)))
                                  else Row(users, m)
  {
    var r := Resent(users, e, code, at);
    if r.reply.Done? {
      var i := ByEmail(users, e).value;
      ResendKeeps(users, e, code, at);
      RowAfterUpdate(users, i, r.users[i], m);
    }
  }

  function ForgotWorks(row: Option<User>, at: int): bool
  {
    row.Some? && !CoolingDown(row.value.reset, at)
  }

  lemma ForgotRow(users: seq<User>, e: string, code: string, at: int, m: string)
    requires AccountsOk(users)
    ensures var r := Forgotten(users, e, code, at);
            && (r.reply.Done? <==> ForgotWorks(Row(users, e), at))
            && Row(r.users, m) == if m == e && r.reply.Done? then Some(Row(users, e).value.(reset := Issued(code, at)))
                                  else Row(users, m)
  {
    var r := Forgotten(users, e, code, at);
    if r.reply.Done? {
      var i := ByEmail(users, e).value;
      ForgotKeeps(users, e, code, at);
      RowAfterUpdate(users, i, r.users[i], m);
    }
  }

  lemma RegisterRow(users: seq<User>, e: string, username: Option<string>, password: Hash, code: string,
                    token: string, at: int, m: string)
    requires AccountsOk(users)
    ensures var r := Registered(users, e, username, password, code, token, at);
            && (r.reply.Done? ==> Row(users, e) == None)
            && (if m == e && r.reply.Done? then
                  && Row(r.users, m).Some? && !Row(r.users, m).value.emailVerified
                  && Row(r.users, m).value.verification == Issued(code, at) && Row(r.users, m).value.reset == NO_CODE
                else Row(r.users, m) == Row(users, m))
  {
    var r := Registered(users, e, username, password, code, token, at);
    if r.reply.Done? {
      RegisterKeeps(users, e, username, password, code, token, at);
      RowAfterAppend(users, r.users[|users|], m);
    }
  }

  /** A code is open for a guess: the email is unverified and has a code, unexpired and unlocked. */
  predicate Open(row: Option<User>, at: int)
  {
    && row.Some? && !row.value.emailVerified && row.value.verification.code.Some?
    && !Expired(row.value.verification.expiry, at) && row.value.verification.attempts < MAX_ATTEMPTS
  }

  predicate CodeMatches(row: Option<User>, code: string)
  {
    row.Some? && !row.value.emailVerified && row.value.verification.code == Some(code)
  }

  lemma VerifyRow(users: seq<User>, e: string, code: string, at: int, m: string)
    requires AccountsOk(users)
    ensures var r := VerifiedByCode(users, e, code, at);
            && (r.reply.Done?
                <==> CodeMatches(Row(users, e), code) && SlotRefusal(Row(users, e).value.verification, at).None?)
            && (r.reply == Refused(InvalidCode) <==> !CodeMatches(Row(users, e), code))
            && Row(r.users, m) == if r.reply.Done? && m == e then Some(Accepted(Row(users, e).value))
                                  else if r.reply == Refused(InvalidCode) && Row(users, m).Some?
                                    then Some(GuessedRow(Row(users, m).value, e))
                                  else Row(users, m)
  {
    var r := VerifiedByCode(users, e, code, at);
    var f := (u: User) => u.email == e && u.verification.code == Some(code) && !u.emailVerified;
    match FindFirst(users, f) {
      case None =>
        if Row(users, e).Some? { assert Row(users, e).value in users; }
        RowAfterGuess(users, e, m);
      case Some(i) =>
        RowIs(users, i);
        if r.reply.Done? {
          VerifyKeeps(users, e, code, at);
          RowAfterUpdate(users, i, r.users[i], m);
        }
    }
  }

  predicate ResetMatches(row: Option<User>, code: string)
  {
    row.Some? && row.value.reset.code == Some(code)
  }

  lemma ResetFound(users: seq<User>, e: string, code: string)
    requires AccountsOk(users)
    ensures ByResetCode(users, e, code) == if ResetMatches(Row(users, e), code) then ByEmail(users, e) else None
  {
    match ByResetCode(users, e, code) {
      case None => if Row(users, e).Some? { assert Row(users, e).value in users; }
      case Some(i) => RowIs(users, i);
    }
  }

  function ResetGuessed(u: User): User
  {
    if u.reset.code.Some? then u.(reset := u.reset.(attempts := u.reset.attempts + 1)) else u
  }

  lemma CheckRow(users: seq<User>, e: string, code: string, at: int, m: string)
    requires AccountsOk(users)
    ensures var r := ResetCodeChecked(users, e, code, at);
            && (r.reply.Done?
                <==> ResetMatches(Row(users, e), code) && SlotRefusal(Row(users, e).value.reset, at).None?)
            && (r.reply in {Refused(InvalidCode), Refused(AttemptsExhausted)} <==> !ResetMatches(Row(users, e), code))
            && (ResetMatches(Row(users, e), code) ==> r.users == users)
            && Row(r.users, m) == if m == e && Row(users, e).Some? && !ResetMatches(Row(users, e), code)
                                  then Some(ResetGuessed(Row(users, e).value)) else Row(users, m)
  {
    var r := ResetCodeChecked(users, e, code, at);
    ResetFound(users, e, code);
    if r.users != users {
      var i := ByEmail(users, e).value;
      CheckKeeps(users, e, code, at);
      RowAfterUpdate(users, i, r.users[i], m);
    }
  }

  lemma ResetRow(users: seq<User>, e: string, code: string, password: Hash, at: int, m: string)
    requires AccountsOk(users)
    ensures var r := PasswordReset(users, e, code, password, at);
            && (r.reply.Done?
                <==> ResetMatches(Row(users, e), code) && SlotRefusal(Row(users, e).value.reset, at).None?)
            && Row(r.users, m) == if m == e && r.reply.Done?
                                  then Some(Row(users, e).value.(password := Some(password),
                                                                 reset := CodeSlot(None, None, true, 0, None)))
                                  else Row(users, m)
  {
    var r := PasswordReset(users, e, code, password, at);
    ResetFound(users, e, code);
    if r.reply.Done? {
      var i := ByEmail(users, e).value;
      ResetKeeps(users, e, code, password, at);
      RowAfterUpdate(users, i, r.users[i], m);
    }
  }

  /** A step without codes: the codes stay, verification is not lost, a new row has no codes. */
  predicate CodesUntouched(before: Option<User>, after: Option<User>)
  {
    match before
    case Some(u) => after.Some? && after.value.verification == u.verification && after.value.reset == u.reset
                    && (u.emailVerified ==> after.value.emailVerified) && after.value.password == u.password
    case None => after.None? || (after.value.verification == NO_CODE && after.value.reset == NO_CODE)
  }

  predicate CodesKept(users: seq<User>, next: seq<User>, m: string)
  {
    CodesUntouched(Row(users, m), Row(next, m))
  }

  lemma TokenRow(users: seq<User>, token: string, at: int, m: string)
    requires AccountsOk(users)
    ensures CodesKept(users, VerifiedByToken(users, token, at).users, m)
  {
    var r := VerifiedByToken(users, token, at);
    TokenKeeps(users, token, at);
    if r.reply.Done? { RowAfterUpdate(users, r.reply.id, r.users[r.reply.id], m); }
  }

  lemma SignInRow(users: seq<User>, p: Profile, m: string)
    requires AccountsOk(users)
    ensures CodesKept(users, SignedIn(users, p).users, m)
  {
    var r := SignedIn(users, p);
    SignInKeeps(users, p);
    if ByProviderId(users, p.provider, p.id).None? {
      match ByEmail(users, p.email) {
        case Some(i) => RowAfterUpdate(users, i, r.users[i], m);
        case None => RowAfterAppend(users, NewOAuthUser(users, p), m);
      }
    }
  }

  lemma LinkRow(users: seq<User>, userId: nat, p: Provider, id: string, m: string)
    requires AccountsOk(users)
    ensures CodesKept(users, Linked(users, userId, p, id).users, m)
  {
    LinkStepKeeps(users, userId, p, id);
    var r := Linked(users, userId, p, id);
    if r.reply.Done? { RowAfterUpdate(users, userId, r.users[userId], m); }
  }

  lemma UnlinkRow(users: seq<User>, userId: nat, p: Provider, m: string)
    requires AccountsOk(users)
    ensures CodesKept(users, Unlinked(users, userId, p).users, m)
  {
    UnlinkKeeps(users, userId, p);
    var r := Unlinked(users, userId, p);
    if r.reply.Done? { RowAfterUpdate(users, userId, r.users[userId], m); }
  }

  lemma SignInStepRow(users: seq<User>, s: Step, m: string)
    requires AccountsOk(users) && (s.VerifyToken? || s.SignIn?)
    ensures CodesKept(users, Run(users, s).users, m)
  {
    match s
    case VerifyToken(token, at) => TokenRow(users, token, at, m);
    case SignIn(profile, _) => SignInRow(users, profile, m);
  }

  lemma LinkStepRow(users: seq<User>, s: Step, m: string)
    requires AccountsOk(users) && (s.Link? || s.Unlink?)
    ensures CodesKept(users, Run(users, s).users, m)
  {
    match s
    case Link(userId, provider, id, _) => LinkRow(users, userId, provider, id, m);
    case Unlink(userId, provider, _) => UnlinkRow(users, userId, provider, m);
  }
}
