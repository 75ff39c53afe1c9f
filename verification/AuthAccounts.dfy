/** What every run of the account service keeps about accounts and their linked providers. */
module AuthAccounts {
  import opened Prelude
  import opened Usernames
  import opened Auth

  predicate NoRepeats(ps: seq<Provider>)
  {
    forall i, j :: 0 <= i < j < |ps| ==> ps[i] != ps[j]
  }

  /** Exactly the listed providers have their id set, none is listed twice, and a way to sign in remains. */
  predicate RowOk(u: User)
  {
    && NoRepeats(u.providers)
    && (forall p: Provider :: p in u.providers <==> IdOf(u, p).Some?)
    && (u.password.Some? || u.providers != [])
  }

  /** Two accounts share no email, username or provider id. */
  predicate Apart(u: User, v: User)
  {
    && u.email != v.email
    && (u.username.Some? ==> u.username != v.username)
    && forall p: Provider :: IdOf(u, p).Some? ==> IdOf(u, p) != IdOf(v, p)
  }

  predicate AccountsOk(users: seq<User>)
  {
    && (forall i :: 0 <= i < |users| ==> RowOk(users[i]))
    && forall i, j :: 0 <= i < j < |users| ==> Apart(users[i], users[j])
  }

  /** The same account later: email and username as before, password and verification never taken away. */
  predicate Continues(u: User, v: User)
  {
    && v.email == u.email && v.username == u.username
    && (u.password.Some? ==> v.password.Some?)
    && (u.emailVerified ==> v.emailVerified)
  }

  predicate AllContinue(users: seq<User>, next: seq<User>)
  {
    |users| <= |next| && forall i :: 0 <= i < |users| ==> Continues(users[i], next[i])
  }

  /** What a step promises about the table it leaves. */
  predicate Keeps(users: seq<User>, next: seq<User>)
  {
    AccountsOk(next) && AllContinue(users, next)
  }

  lemma OthersApart(users: seq<User>, i: nat, j: nat)
    requires AccountsOk(users) && i < |users| && j < |users| && i != j
    ensures Apart(users[i], users[j])
  {
  }

  lemma RowChanged(users: seq<User>, i: nat, u: User)
    requires AccountsOk(users) && i < |users| && RowOk(u)
    requires forall j :: 0 <= j < |users| && j != i ==> Apart(u, users[j])
    ensures AccountsOk(users[i := u])
  {
  }

  lemma RowAdded(users: seq<User>, u: User)
    requires AccountsOk(users) && RowOk(u)
    requires forall j :: 0 <= j < |users| ==> Apart(users[j], u)
    ensures AccountsOk(users + [u])
  {
  }

  lemma {:induction false} UniqueHas(ps: seq<Provider>)
    ensures NoRepeats(Unique(ps)) && forall p :: p in Unique(ps) <==> p in ps
  {
    if ps != [] { UniqueHas(ps[..|ps| - 1]); }
  }

  lemma {:induction false} WithoutKeepsOrder(ps: seq<Provider>, p: Provider)
    requires NoRepeats(ps)
    ensures NoRepeats(WithoutProvider(ps, p))
  {
    if ps != [] {
      WithoutKeepsOrder(ps[..|ps| - 1], p);
      var rest := WithoutProvider(ps[..|ps| - 1], p);
      forall i | 0 <= i < |rest| ensures rest[i] != ps[|ps| - 1] {
        assert rest[i] in rest && rest[i] in ps[..|ps| - 1];
      }
    }
  }

  /** Setting the id of a provider nobody else has it for, and listing the provider. */
  lemma LinkKeeps(users: seq<User>, i: nat, p: Provider, id: string, v: bool)
    requires AccountsOk(users) && i < |users| && !OtherHas(users, i, p, id)
    requires users[i].emailVerified ==> v
    ensures Keeps(users, users[i := WithId(users[i], p, Some(id)).(providers := WithProvider(users[i].providers, p),
                                                                   emailVerified := v)])
  {
    var u := WithId(users[i], p, Some(id)).(providers := WithProvider(users[i].providers, p), emailVerified := v);
    UniqueHas(users[i].providers + [p]);
    assert RowOk(users[i]);
    assert p in u.providers;
    forall j | 0 <= j < |users| && j != i ensures Apart(u, users[j]) {
      OthersApart(users, i, j);
      assert IdOf(users[j], p) != Some(id);
    }
    RowChanged(users, i, u);
  }

  lemma UnlinkKeeps(users: seq<User>, i: nat, p: Provider)
    requires AccountsOk(users)
    ensures Keeps(users, Unlinked(users, i, p).users)
  {
    if Unlinked(users, i, p).reply.Done? {
      var others := WithoutProvider(users[i].providers, p);
      var u := WithId(users[i], p, None).(providers := others);
      assert RowOk(users[i]);
      WithoutKeepsOrder(users[i].providers, p);
      forall j | 0 <= j < |users| && j != i ensures Apart(u, users[j]) {
        OthersApart(users, i, j);
      }
      RowChanged(users, i, u);
    }
  }

  lemma SignInKeeps(users: seq<User>, profile: Profile)
    requires AccountsOk(users)
    ensures Keeps(users, SignedIn(users, profile).users)
  {
    var p, id := profile.provider, profile.id;
    if ByProviderId(users, p, id).None? {
      forall u | u in users ensures IdOf(u, p) != Some(id) { }
      match ByEmail(users, profile.email) {
        case Some(i) => LinkKeeps(users, i, p, id, profile.emailVerified || users[i].emailVerified);
        case None => NewUserKeeps(users, profile);
      }
    }
  }

  lemma NewUserKeeps(users: seq<User>, profile: Profile)
    requires AccountsOk(users) && ByEmail(users, profile.email).None?
             && ByProviderId(users, profile.provider, profile.id).None?
    ensures Keeps(users, users + [NewOAuthUser(users, profile)])
  {
    var u := NewOAuthUser(users, profile);
    FreshName(users, BaseUsername(profile.email));
    NewUserRow(users, profile);
    forall j | 0 <= j < |users| ensures Apart(users[j], u) {
      assert users[j] in users;
      assert IdOf(users[j], profile.provider) != Some(profile.id);
    }
    RowAdded(users, u);
    assert AllContinue(users, users + [u]);
  }

  lemma NewUserRow(users: seq<User>, profile: Profile)
    ensures var u := NewOAuthUser(users, profile);
            && RowOk(u) && u.email == profile.email
            && u.username == Some(FreeUsername(TakenNames(users), BaseUsername(profile.email)))
            && forall p: Provider :: IdOf(u, p) == if p == profile.provider then Some(profile.id) else None
  {
  }

  lemma FreshName(users: seq<User>, base: string)
    ensures forall u <- users :: u.username != Some(FreeUsername(TakenNames(users), base))
  {
    FreeUsernameIsFresh(TakenNames(users), base);
  }

  lemma RegisterKeeps(users: seq<User>, email: string, username: Option<string>, password: Hash, code: string,
                      token: string, at: int)
    requires AccountsOk(users)
    ensures Keeps(users, Registered(users, email, username, password, code, token, at).users)
  {
    var r := Registered(users, email, username, password, code, token, at);
    if r.reply.Done? {
      var u := r.users[|users|];
      forall j | 0 <= j < |users| ensures Apart(users[j], u) {
        assert users[j] in users;
      }
      RowAdded(users, u);
    }
  }

  /** A step that writes codes, flags or a password into one row. */
  lemma RowTouched(users: seq<User>, i: nat, u: User)
    requires AccountsOk(users) && i < |users|
    requires Continues(users[i], u) && u.providers == users[i].providers
    requires forall p: Provider :: IdOf(u, p) == IdOf(users[i], p)
    ensures Keeps(users, users[i := u])
  {
  }

  lemma GuessKeeps(users: seq<User>, email: string)
    requires AccountsOk(users)
    ensures Keeps(users, Guessed(users, email))
  {
  }

  lemma TokenKeeps(users: seq<User>, token: string, at: int)
    requires AccountsOk(users)
    ensures Keeps(users, VerifiedByToken(users, token, at).users)
  {
    var r := VerifiedByToken(users, token, at);
    if r.reply.Done? { RowTouched(users, r.reply.id, r.users[r.reply.id]); }
  }

  lemma VerifyKeeps(users: seq<User>, email: string, code: string, at: int)
    requires AccountsOk(users)
    ensures Keeps(users, VerifiedByCode(users, email, code, at).users)
  {
    var r := VerifiedByCode(users, email, code, at);
    if r.reply.Done? { RowTouched(users, r.reply.id, r.users[r.reply.id]); } else { GuessKeeps(users, email); }
  }

  lemma ResendKeeps(users: seq<User>, email: string, code: string, at: int)
    requires AccountsOk(users)
    ensures Keeps(users, Resent(users, email, code, at).users)
  {
    var r := Resent(users, email, code, at);
    if r.reply.Done? { RowTouched(users, r.reply.id, r.users[r.reply.id]); }
  }

  lemma ForgotKeeps(users: seq<User>, email: string, code: string, at: int)
    requires AccountsOk(users)
    ensures Keeps(users, Forgotten(users, email, code, at).users)
  {
    var r := Forgotten(users, email, code, at);
    if r.reply.Done? { RowTouched(users, r.reply.id, r.users[r.reply.id]); }
  }

  lemma CheckKeeps(users: seq<User>, email: string, code: string, at: int)
    requires AccountsOk(users)
    ensures Keeps(users, ResetCodeChecked(users, email, code, at).users)
  {
    var r := ResetCodeChecked(users, email, code, at);
    if r.users != users {
      var j := ByEmail(users, email).value;
      RowTouched(users, j, r.users[j]);
    }
  }

  lemma ResetKeeps(users: seq<User>, email: string, code: string, password: Hash, at: int)
    requires AccountsOk(users)
    ensures Keeps(users, PasswordReset(users, email, code, password, at).users)
  {
    var r := PasswordReset(users, email, code, password, at);
    if r.reply.Done? { RowTouched(users, r.reply.id, r.users[r.reply.id]); }
  }

  lemma LinkStepKeeps(users: seq<User>, userId: nat, provider: Provider, id: string)
    requires AccountsOk(users)
    ensures Keeps(users, Linked(users, userId, provider, id).users)
  {
    if Linked(users, userId, provider, id).reply.Done? {
      LinkKeeps(users, userId, provider, id, users[userId].emailVerified);
    }
  }

  lemma CodeStepKeeps(users: seq<User>, s: Step)
    requires AccountsOk(users) && (s.VerifyToken? || s.VerifyCode? || s.Resend? || s.Forgot? || s.CheckReset?)
    ensures Keeps(users, Run(users, s).users)
  {
    match s
    case VerifyToken(token, at) => TokenKeeps(users, token, at);
    case VerifyCode(email, code, at) => VerifyKeeps(users, email, code, at);
    case Resend(email, code, at) => ResendKeeps(users, email, code, at);
    case Forgot(email, code, at) => ForgotKeeps(users, email, code, at);
    case CheckReset(email, code, at) => CheckKeeps(users, email, code, at);
  }

  /**
   * Every step keeps the accounts in order, and no step removes an account, renames it, or takes
   * its password or verification away.
   */
  lemma StepKeepsAccounts(users: seq<User>, s: Step)
    requires AccountsOk(users)
    ensures Keeps(users, Run(users, s).users)
  {
    match s
    case Register(email, username, password, code, token, at) =>
      RegisterKeeps(users, email, username, password, code, token, at);
    case ResetPassword(email, code, password, at) => ResetKeeps(users, email, code, password, at);
    case SignIn(profile, _) => SignInKeeps(users, profile);
    case Link(userId, provider, id, _) => LinkStepKeeps(users, userId, provider, id);
    case Unlink(userId, provider, _) => UnlinkKeeps(users, userId, provider);
    case _ => CodeStepKeeps(users, s);
  }

  /**
   * After any run, each provider id, email and username belongs to at most one account, exactly the
   * listed providers have an id, and every account can be signed in to.
   */
  lemma {:induction false} RunKeepsAccounts(steps: seq<Step>)
    ensures AccountsOk(After(steps))
    decreases |steps|
  {
    if steps != [] {
      RunKeepsAccounts(steps[..|steps| - 1]);
      StepKeepsAccounts(After(steps[..|steps| - 1]), steps[|steps| - 1]);
    }
  }

  /** A sign-in that makes an account gives it a username nobody has. */
  lemma NewUsernameIsFresh(steps: seq<Step>, profile: Profile)
    ensures var users := After(steps);
            var next := SignedIn(users, profile).users;
            |next| > |users| ==>
              next[|users|].username.Some? && forall u <- users :: u.username != next[|users|].username
  {
    FreshName(After(steps), BaseUsername(profile.email));
  }

  /** Linking makes sign-in with that provider id reach the linked account. */
  lemma LinkedThenSignedIn(users: seq<User>, userId: nat, provider: Provider, id: string, profile: Profile)
    requires AccountsOk(users) && Linked(users, userId, provider, id).reply.Done?
    requires profile.provider == provider && profile.id == id
    ensures SignedIn(Linked(users, userId, provider, id).users, profile)
         == Outcome(Linked(users, userId, provider, id).users, Done(userId))
  {
    var next := Linked(users, userId, provider, id).users;
    LinkKeeps(users, userId, provider, id, users[userId].emailVerified);
    assert IdOf(next[userId], provider) == Some(id);
    assert next[userId] in next;
    OnlyHolder(next, provider, id, ByProviderId(next, provider, id).value, userId);
  }

  /** Signing in again reaches the same account and changes nothing. */
  lemma SignedInAgain(users: seq<User>, profile: Profile)
    requires AccountsOk(users)
    ensures SignedIn(SignedIn(users, profile).users, profile) == SignedIn(users, profile)
  {
    var next, i := SignedIn(users, profile).users, SignedIn(users, profile).reply.id;
    SignInKeeps(users, profile);
    assert next[i] in next && IdOf(next[i], profile.provider) == Some(profile.id);
    OnlyHolder(next, profile.provider, profile.id, ByProviderId(next, profile.provider, profile.id).value, i);
  }

  lemma OnlyHolder(users: seq<User>, provider: Provider, id: string, i: nat, j: nat)
    requires AccountsOk(users) && i < |users| && j < |users|
    requires IdOf(users[i], provider) == IdOf(users[j], provider) == Some(id)
    ensures i == j
  {
  }

  /** Unlinking undoes a link to an account that did not have the provider. */
  lemma UnlinkUndoesLink(users: seq<User>, userId: nat, provider: Provider, id: string)
    requires AccountsOk(users) && userId < |users| && provider !in users[userId].providers
    requires Linked(users, userId, provider, id).reply.Done?
    ensures Unlinked(Linked(users, userId, provider, id).users, userId, provider) == Outcome(users, Done(userId))
  {
    var u := users[userId];
    var linked := Linked(users, userId, provider, id).users;
    assert RowOk(u);
    assert IdOf(u, provider) == None;
    UniqueOfDistinct(u.providers + [provider]);
    WithoutLast(u.providers, provider);
    LinkedRowBack(u, provider, id);
    assert linked[userId := u] == users;
  }

  lemma LinkedRowBack(u: User, provider: Provider, id: string)
    requires IdOf(u, provider) == None
    ensures WithId(WithId(u, provider, Some(id)), provider, None) == u
    ensures var ps := u.providers + [provider];
            WithId(WithId(u, provider, Some(id)).(providers := ps), provider, None).(providers := u.providers) == u
  {
  }

  lemma {:induction false} UniqueOfDistinct(ps: seq<Provider>)
    requires NoRepeats(ps)
    ensures Unique(ps) == ps
  {
    if ps != [] {
      var front := ps[..|ps| - 1];
      UniqueOfDistinct(front);
      assert ps == front + [ps[|ps| - 1]];
    }
  }

  lemma WithoutLast(ps: seq<Provider>, p: Provider)
    requires p !in ps
    ensures WithoutProvider(ps + [p], p) == ps
  {
    assert (ps + [p])[..|ps|] == ps;
    WithoutAbsent(ps, p);
  }

  lemma {:induction false} WithoutAbsent(ps: seq<Provider>, p: Provider)
    requires p !in ps
    ensures WithoutProvider(ps, p) == ps
  {
    if ps != [] { WithoutAbsent(ps[..|ps| - 1], p); }
  }
}
