/** What each account operation answers and stores, field by field, with the times and limits spelled out. */
module AuthMeanings {
  import opened Prelude
  import opened Usernames
  import opened Auth
  import opened AuthAccounts
  import opened AuthRows

  predicate HasEmail(users: seq<User>, email: string)
  {
    exists u <- users :: u.email == email
  }

  predicate HasName(users: seq<User>, name: string)
  {
    exists u <- users :: u.username == Some(name)
  }

  /** Only row i changed. */
  predicate OnlyRow(users: seq<User>, next: seq<User>, i: nat)
  {
    |next| == |users| && i < |users| && forall j :: 0 <= j < |users| && j != i ==> next[j] == users[j]
  }

  /** A fresh code: ten minutes to live, no guesses. */
  predicate IsNewCode(slot: CodeSlot, code: string, at: int)
  {
    && slot.code == Some(code) && slot.expiry == Some(at + 600000) && !slot.used && slot.attempts == 0
    && slot.sentAt == Some(at)
  }

  predicate IsNoCode(slot: CodeSlot)
  {
    slot.code.None? && slot.expiry.None? && !slot.used && slot.attempts == 0 && slot.sentAt.None?
  }

  /** Why a code that matches is not taken: used, older than its expiry, or guessed at five times; in this order. */
  predicate IsRefusal(slot: CodeSlot, at: int, reply: Reply)
  {
    && (slot.used ==> reply == Refused(CodeUsed))
    && (!slot.used && (slot.expiry.None? || at > slot.expiry.value) ==> reply == Refused(CodeExpired))
    && (!slot.used && slot.expiry.Some? && at <= slot.expiry.value ==>
          slot.attempts >= 5 && reply == Refused(TooManyAttempts))
  }

  predicate Takes(slot: CodeSlot, at: int)
  {
    !slot.used && slot.expiry.Some? && at <= slot.expiry.value && slot.attempts < 5
  }

  lemma TheEmail(users: seq<User>, i: nat)
    requires AccountsOk(users) && i < |users|
    ensures ByEmail(users, users[i].email) == Some(i)
    ensures forall j :: 0 <= j < |users| && users[j].email == users[i].email ==> j == i
  {
    RowIs(users, i);
    forall j | 0 <= j < |users| && users[j].email == users[i].email ensures j == i { RowIs(users, j); }
  }

  // ---------------------------------------------------------------- registration

  lemma NamesTaken(users: seq<User>, name: string)
    ensures name in TakenNames(users) <==> HasName(users, name)
  {
    if name in TakenNames(users) { TakenNamesOnly(users, name); }
    if HasName(users, name) { var u :| u in users && u.username == Some(name); }
  }

  lemma {:induction false} TakenNamesOnly(users: seq<User>, name: string)
    requires name in TakenNames(users)
    ensures HasName(users, name)
  {
    if users[0].username == Some(name) {
      assert users[0] in users;
    } else {
      TakenNamesOnly(users[1..], name);
      var u :| u in users[1..] && u.username == Some(name);
      assert u in users;
    }
  }

  /** A registration goes through exactly when email and username are free; the row holds what was given, unverified. */
  lemma RegisterMeans(users: seq<User>, email: string, username: Option<string>, password: Hash, code: string,
                      token: string, at: int)
    ensures var r := Registered(users, email, username, password, code, token, at);
            && (r.reply == Done(|users|) || r.reply == Refused(Conflict))
            && (r.reply.Done? <==>
                  && !HasEmail(users, email)
                  && (username.Some? && username.value != "" ==> !HasName(users, username.value)))
            && (!r.reply.Done? ==> r.users == users)
            && (r.reply.Done? ==>
                  && |r.users| == |users| + 1 && r.users[..|users|] == users
                  && var u := r.users[|users|];
                     && u.email == email && u.username == (if username == Some("") then None else username)
                     && u.password == Some(password) && !u.emailVerified
                     && IsNewCode(u.verification, code, at) && IsNoCode(u.reset)
                     && u.token == Some(token) && u.tokenExpiry == Some(at + 86400000)
                     && u.googleId.None? && u.facebookId.None? && u.firebaseUid.None? && u.providers == [])
  {
    if username.Some? { NamesTaken(users, username.value); }
  }

  // ---------------------------------------------------------------- verification

  /** A token verifies the unverified row that holds it, within its time, and is used up. */
  lemma TokenMeans(users: seq<User>, token: string, at: int)
    ensures var r := VerifiedByToken(users, token, at);
            && (r.reply == Refused(InvalidToken) <==> forall u <- users :: u.token != Some(token) || u.emailVerified)
            && (!r.reply.Done? ==> r.users == users && r.reply in {Refused(InvalidToken), Refused(CodeExpired)})
            && (r.reply.Done? ==>
                  && OnlyRow(users, r.users, r.reply.id)
                  && var u := users[r.reply.id];
                     && u.token == Some(token) && !u.emailVerified && u.tokenExpiry.Some? && at <= u.tokenExpiry.value
                     && r.users[r.reply.id] == u.(emailVerified := true, token := None, tokenExpiry := None))
            && (r.reply == Refused(CodeExpired) ==>
                  exists u <- users :: u.token == Some(token) && !u.emailVerified
                                       && (u.tokenExpiry.None? || at > u.tokenExpiry.value))
  {
  }

  lemma NoEmailNoChange(users: seq<User>, email: string, code: string, at: int)
    requires !HasEmail(users, email)
    ensures VerifiedByCode(users, email, code, at) == Outcome(users, Refused(InvalidCode))
    ensures ResetCodeChecked(users, email, code, at) == Outcome(users, Refused(InvalidCode))
    ensures Resent(users, email, code, at) == Outcome(users, Unknown)
    ensures Forgotten(users, email, code, at) == Outcome(users, Unknown)
    ensures forall password :: PasswordReset(users, email, code, password, at) == Outcome(users, Refused(InvalidCode))
  {
    forall i | 0 <= i < |users| ensures Guessed(users, email)[i] == users[i] { assert users[i] in users; }
  }

  /** A guess at a verification code, on the row of the email. */
  lemma VerifyMeans(users: seq<User>, i: nat, code: string, at: int)
    requires AccountsOk(users) && i < |users|
    ensures var u, r := users[i], VerifiedByCode(users, users[i].email, code, at);
            var matches := !u.emailVerified && u.verification.code == Some(code);
            && (r.reply == Refused(InvalidCode) <==> !matches)
            && (r.reply.Done? <==> matches && Takes(u.verification, at))
            && (matches && !r.reply.Done? ==> IsRefusal(u.verification, at, r.reply) && r.users == users)
            && (r.reply.Done? ==>
                  && r.reply.id == i && OnlyRow(users, r.users, i)
                  && var v := r.users[i];
                     && v.emailVerified && v.token.None? && v.tokenExpiry.None?
                     && v.verification.code.None? && v.verification.expiry.None? && v.verification.used
                     && v.verification.attempts == 0 && v.verification.sentAt == u.verification.sentAt
                     && v.reset == u.reset && v.password == u.password && v.providers == u.providers)
            && (!matches ==>
                  && OnlyRow(users, r.users, i)
                  && r.users[i].verification.attempts == u.verification.attempts + (if u.emailVerified then 0 else 1)
                  && r.users[i] == u.(verification := u.verification.(attempts := r.users[i].verification.attempts)))
  {
    TheEmail(users, i);
    VerifyFinds(users, i, code);
  }

  lemma VerifyFinds(users: seq<User>, i: nat, code: string)
    requires AccountsOk(users) && i < |users|
    ensures FindFirst(users,
                      (u: User) => u.email == users[i].email && u.verification.code == Some(code) && !u.emailVerified)
         == if !users[i].emailVerified && users[i].verification.code == Some(code) then Some(i) else None
  {
    TheEmail(users, i);
    assert users[i] in users;
  }

  /** A new verification code at most once a minute, for an unverified email. */
  lemma ResendMeans(users: seq<User>, i: nat, code: string, at: int)
    requires AccountsOk(users) && i < |users|
    ensures var u, r := users[i], Resent(users, users[i].email, code, at);
            var tooSoon := u.verification.sentAt.Some? && at - u.verification.sentAt.value < 60000;
            && (u.emailVerified ==> r == Outcome(users, Refused(AlreadyVerified)))
            && (!u.emailVerified && tooSoon ==> r == Outcome(users, Refused(RateLimited)))
            && (!u.emailVerified && !tooSoon ==>
                  && r.reply == Done(i) && OnlyRow(users, r.users, i) && IsNewCode(r.users[i].verification, code, at)
                  && r.users[i] == u.(verification := r.users[i].verification))
  {
    TheEmail(users, i);
  }

  // ---------------------------------------------------------------- password reset

  /** A new reset code at most once a minute. */
  lemma ForgotMeans(users: seq<User>, i: nat, code: string, at: int)
    requires AccountsOk(users) && i < |users|
    ensures var u, r := users[i], Forgotten(users, users[i].email, code, at);
            var tooSoon := u.reset.sentAt.Some? && at - u.reset.sentAt.value < 60000;
            && (tooSoon ==> r == Outcome(users, Refused(RateLimited)))
            && (!tooSoon ==>
                  && r.reply == Done(i) && OnlyRow(users, r.users, i) && IsNewCode(r.users[i].reset, code, at)
                  && r.users[i] == u.(reset := r.users[i].reset))
  {
    TheEmail(users, i);
  }

  /** A check of a reset code: a match changes nothing, a wrong one is counted and at the fifth says so. */
  lemma CheckMeans(users: seq<User>, i: nat, code: string, at: int)
    requires AccountsOk(users) && i < |users|
    ensures var u, r := users[i], ResetCodeChecked(users, users[i].email, code, at);
            && (u.reset.code == Some(code) ==>
                  && r.users == users
                  && if Takes(u.reset, at) then r.reply == Done(i) else IsRefusal(u.reset, at, r.reply))
            && (u.reset.code.None? ==> r == Outcome(users, Refused(InvalidCode)))
            && (u.reset.code.Some? && u.reset.code != Some(code) ==>
                  && r.reply == Refused(if u.reset.attempts + 1 >= 5 then AttemptsExhausted else InvalidCode)
                  && OnlyRow(users, r.users, i)
                  && r.users[i] == u.(reset := u.reset.(attempts := u.reset.attempts + 1)))
  {
    TheEmail(users, i);
    ResetFound(users, users[i].email, code);
  }

  /** A reset with a code that is good stores the password and uses the code up; any other changes nothing. */
  lemma ResetMeans(users: seq<User>, i: nat, code: string, password: Hash, at: int)
    requires AccountsOk(users) && i < |users|
    ensures var u, r := users[i], PasswordReset(users, users[i].email, code, password, at);
            && (u.reset.code != Some(code) ==> r == Outcome(users, Refused(InvalidCode)))
            && (u.reset.code == Some(code) && !Takes(u.reset, at) ==>
                  r.users == users && IsRefusal(u.reset, at, r.reply))
            && (u.reset.code == Some(code) && Takes(u.reset, at) ==>
                  && r.reply == Done(i) && OnlyRow(users, r.users, i)
                  && var v := r.users[i];
                     && v.password == Some(password) && v.reset.code.None? && v.reset.expiry.None? && v.reset.used
                     && v.reset.attempts == 0 && v.reset.sentAt.None?
                     && v == u.(password := v.password, reset := v.reset))
  {
    TheEmail(users, i);
    ResetFound(users, users[i].email, code);
  }

  // ---------------------------------------------------------------- providers

  /** The id a row has for a provider. */
  predicate HasProviderId(u: User, p: Provider, id: string)
  {
    match p
    case Google => u.googleId == Some(id)
    case Facebook => u.facebookId == Some(id)
    case Firebase => u.firebaseUid == Some(id)
  }

  /** Two rows that differ at most in a provider's id, the provider list and verification. */
  predicate SameButProvider(u: User, v: User, p: Provider)
  {
    && v.email == u.email && v.username == u.username && v.password == u.password
    && v.verification == u.verification && v.token == u.token && v.tokenExpiry == u.tokenExpiry && v.reset == u.reset
    && (p != Google ==> v.googleId == u.googleId) && (p != Facebook ==> v.facebookId == u.facebookId)
    && (p != Firebase ==> v.firebaseUid == u.firebaseUid)
  }

  predicate SameProvidersAnd(before: seq<Provider>, p: Provider, after: seq<Provider>)
  {
    && NoRepeats(after) && (forall q :: q in after <==> q in before || q == p)
  }

  /** A sign-in with a provider id that a row has reaches such a row and changes nothing. */
  lemma SignInById(users: seq<User>, p: Profile)
    requires exists u <- users :: HasProviderId(u, p.provider, p.id)
    ensures var r := SignedIn(users, p);
            && r.reply.Done? && r.reply.id < |users| && r.users == users
            && HasProviderId(users[r.reply.id], p.provider, p.id)
  {
    SignInFinds(users, p);
  }

  /**
   * Otherwise the row of the email gets the id and the provider; it is verified exactly when it was or
   * the profile is, and its password and codes stay.
   */
  lemma SignInByEmail(users: seq<User>, p: Profile)
    requires AccountsOk(users)
    requires (forall u <- users :: !HasProviderId(u, p.provider, p.id)) && HasEmail(users, p.email)
    ensures var r := SignedIn(users, p);
            && r.reply.Done? && OnlyRow(users, r.users, r.reply.id)
            && var u, v := users[r.reply.id], r.users[r.reply.id];
               && u.email == p.email && SameButProvider(u, v, p.provider) && HasProviderId(v, p.provider, p.id)
               && SameProvidersAnd(u.providers, p.provider, v.providers)
               && (v.emailVerified <==> u.emailVerified || p.emailVerified)
  {
    SignInFinds(users, p);
    UniqueHas(users[ByEmail(users, p.email).value].providers + [p.provider]);
  }

  /** Otherwise there is a new row, verified exactly when the profile is, without password or codes. */
  lemma SignInNew(users: seq<User>, p: Profile)
    requires (forall u <- users :: !HasProviderId(u, p.provider, p.id)) && !HasEmail(users, p.email)
    ensures var r := SignedIn(users, p);
            && r.reply == Done(|users|) && |r.users| == |users| + 1 && r.users[..|users|] == users
            && IsNewAccount(r.users[|users|], p)
  {
    SignInFinds(users, p);
  }

  predicate IsNewAccount(u: User, p: Profile)
  {
    && u.email == p.email && u.username.Some? && u.password.None? && (u.emailVerified <==> p.emailVerified)
    && IsNoCode(u.verification) && IsNoCode(u.reset) && u.token.None? && u.tokenExpiry.None?
    && u.providers == [p.provider] && HasProviderId(u, p.provider, p.id)
    && (p.provider != Google ==> u.googleId.None?) && (p.provider != Facebook ==> u.facebookId.None?)
    && (p.provider != Firebase ==> u.firebaseUid.None?)
  }

  /** The new row's username is the first of base, base1, base2 and so on that no row has. */
  lemma SignInNames(users: seq<User>, p: Profile)
    requires (forall u <- users :: !HasProviderId(u, p.provider, p.id)) && !HasEmail(users, p.email)
    ensures exists n: nat ::
              && |SignedIn(users, p).users| == |users| + 1
              && SignedIn(users, p).users[|users|].username == Some(Candidate(BaseUsername(p.email), n))
              && IsFirstFree(users, BaseUsername(p.email), n)
  {
    SignInFinds(users, p);
    var base := BaseUsername(p.email);
    FreeUsernameIsFresh(TakenNames(users), base);
    var n := FirstFree(TakenNames(users), base, 0);
    NamesTaken(users, Candidate(base, n));
    forall j | 0 <= j < n ensures HasName(users, Candidate(base, j)) { NamesTaken(users, Candidate(base, j)); }
    assert IsFirstFree(users, base, n);
  }

  predicate IsFirstFree(users: seq<User>, base: string, n: nat)
  {
    !HasName(users, Candidate(base, n)) && forall j :: 0 <= j < n ==> HasName(users, Candidate(base, j))
  }

  lemma SignInFinds(users: seq<User>, p: Profile)
    ensures ByProviderId(users, p.provider, p.id).Some? <==> exists u <- users :: HasProviderId(u, p.provider, p.id)
    ensures ByEmail(users, p.email).Some? <==> HasEmail(users, p.email)
  {
    match ByProviderId(users, p.provider, p.id) {
      case Some(i) => assert users[i] in users && HasProviderId(users[i], p.provider, p.id);
      case None => forall u | u in users ensures !HasProviderId(u, p.provider, p.id) {
        assert IdOf(u, p.provider) != Some(p.id);
      }
    }
    if ByEmail(users, p.email).Some? { assert users[ByEmail(users, p.email).value] in users; }
  }

  /**
   * A link goes through exactly when the user is there and no other has the id; it adds id and provider
   * and nothing else.
   */
  lemma LinkMeans(users: seq<User>, userId: nat, p: Provider, id: string)
    ensures var r := Linked(users, userId, p, id);
            var others := exists j :: 0 <= j < |users| && j != userId && HasProviderId(users[j], p, id);
            && (r.reply == Refused(NotFound) <==> userId >= |users|)
            && (r.reply == Refused(Conflict) <==> userId < |users| && others)
            && (!r.reply.Done? ==> r.users == users)
            && (userId < |users| && !others ==>
                  && r.reply == Done(userId) && OnlyRow(users, r.users, userId)
                  && var u, v := users[userId], r.users[userId];
                     && SameButProvider(u, v, p) && HasProviderId(v, p, id) && v.emailVerified == u.emailVerified
                     && SameProvidersAnd(u.providers, p, v.providers))
  {
    if userId < |users| {
      UniqueHas(users[userId].providers + [p]);
      OthersExactly(users, userId, p, id);
    }
  }

  lemma OthersExactly(users: seq<User>, userId: nat, p: Provider, id: string)
    ensures OtherHas(users, userId, p, id) <==>
              exists j :: 0 <= j < |users| && j != userId && HasProviderId(users[j], p, id)
  {
    if OtherHas(users, userId, p, id) {
      var j :| 0 <= j < |users| && j != userId && IdOf(users[j], p) == Some(id);
      assert HasProviderId(users[j], p, id);
    }
    if exists j :: 0 <= j < |users| && j != userId && HasProviderId(users[j], p, id) {
      var j :| 0 <= j < |users| && j != userId && HasProviderId(users[j], p, id);
      assert IdOf(users[j], p) == Some(id);
    }
  }

  /** An unlink goes through exactly for a listed provider with a password or another provider left. */
  lemma UnlinkMeans(users: seq<User>, userId: nat, p: Provider)
    ensures var r := Unlinked(users, userId, p);
            && (r.reply == Refused(NotFound) <==> userId >= |users| || p !in users[userId].providers)
            && (r.reply == Refused(LastMethod) <==>
                  && userId < |users| && p in users[userId].providers && users[userId].password.None?
                  && forall q <- users[userId].providers :: q == p)
            && (r.reply in {Refused(NotFound), Refused(LastMethod), Done(userId)})
            && (!r.reply.Done? ==> r.users == users)
            && (r.reply.Done? ==>
                  && OnlyRow(users, r.users, userId)
                  && var u, v := users[userId], r.users[userId];
                     && SameButProvider(u, v, p) && v.emailVerified == u.emailVerified
                     && (forall id :: !HasProviderId(v, p, id))
                     && forall q :: q in v.providers <==> q in u.providers && q != p)
  {
    if userId < |users| && p in users[userId].providers {
      var others := WithoutProvider(users[userId].providers, p);
      assert others == [] <==> forall q <- users[userId].providers :: q == p by {
        if others != [] { assert others[0] in others; }
      }
    }
  }
}
