/**
 * The account service: email verification codes, password reset codes, and linking of OAuth
 * providers, as operations on the user table. Times are milliseconds; codes, tokens and
 * password hashes are opaque inputs.
 */
module Auth {
  import opened Prelude
  import opened Usernames

  const CODE_TTL := 600000
  const TOKEN_TTL := 86400000
  const COOLDOWN := 60000
  const MAX_ATTEMPTS := 5

  datatype Provider = Google | Facebook | Firebase

  datatype Hash = Hash(digest: string)

  /** The five columns of a code: the code, its expiry, used flag, wrong guesses and time of issue. */
  datatype CodeSlot = CodeSlot(code: Option<string>, expiry: Option<int>, used: bool, attempts: nat,
                               sentAt: Option<int>)

  const NO_CODE := CodeSlot(None, None, false, 0, None)

  datatype User = User(
    email: string,
    username: Option<string>,
    password: Option<Hash>,
    emailVerified: bool,
    verification: CodeSlot,
    token: Option<string>,
    tokenExpiry: Option<int>,
    reset: CodeSlot,
    googleId: Option<string>,
    facebookId: Option<string>,
    firebaseUid: Option<string>,
    providers: seq<Provider>)

  /** What the OAuth service reports about a validated token. */
  datatype Profile = Profile(provider: Provider, id: string, email: string, emailVerified: bool)

  datatype Reason =
    | Conflict | InvalidCode | InvalidToken | CodeUsed | CodeExpired | TooManyAttempts | AttemptsExhausted
    | RateLimited | AlreadyVerified | NotFound | LastMethod

  /** Unknown is the success message that hides that no account exists. */
  datatype Reply = Done(id: nat) | Unknown | Refused(reason: Reason)

  datatype Outcome = Outcome(users: seq<User>, reply: Reply)

  // ---------------------------------------------------------------- queries

  function FindFirst(users: seq<User>, f: User -> bool): (r: Option<nat>)
    ensures r.Some? ==> r.value < |users| && f(users[r.value])
    ensures r.None? ==> forall u <- users :: !f(u)
  {
    if users == [] then None
    else if f(users[0]) then Some(0)
    else match FindFirst(users[1..], f)
         case Some(i) => Some(i + 1)
         case None => None
  }

  function ByEmail(users: seq<User>, email: string): Option<nat>
  {
    FindFirst(users, (u: User) => u.email == email)
  }

  function IdOf(u: User, provider: Provider): Option<string>
  {
    match provider
    case Google => u.googleId
    case Facebook => u.facebookId
    case Firebase => u.firebaseUid
  }

  function WithId(u: User, provider: Provider, id: Option<string>): User
  {
    match provider
    case Google => u.(googleId := id)
    case Facebook => u.(facebookId := id)
    case Firebase => u.(firebaseUid := id)
  }

  function ByProviderId(users: seq<User>, provider: Provider, id: string): Option<nat>
  {
    FindFirst(users, (u: User) => IdOf(u, provider) == Some(id))
  }

  function TakenNames(users: seq<User>): (r: set<string>)
    ensures forall u <- users :: u.username.Some? ==> u.username.value in r
  {
    if users == [] then {}
    else (if users[0].username.Some? then {users[0].username.value} else {}) + TakenNames(users[1..])
  }

  function Expired(expiry: Option<int>, now: int): bool
  {
    expiry.None? || now > expiry.value
  }

  function Issued(code: string, at: int): CodeSlot
  {
    CodeSlot(Some(code), Some(at + CODE_TTL), false, 0, Some(at))
  }

  predicate CoolingDown(slot: CodeSlot, now: int)
  {
    slot.sentAt.Some? && now - slot.sentAt.value < COOLDOWN
  }

  /** The provider list as a set in order of first mention, with one provider added. */
  function WithProvider(providers: seq<Provider>, p: Provider): seq<Provider>
  {
    Unique(providers + [p])
  }

  function Unique(ps: seq<Provider>): seq<Provider>
  {
    if ps == [] then []
    else
      var rest := Unique(ps[..|ps| - 1]);
      if ps[|ps| - 1] in rest then rest else rest + [ps[|ps| - 1]]
  }

  function WithoutProvider(ps: seq<Provider>, p: Provider): (r: seq<Provider>)
    ensures forall x :: x in r <==> x in ps && x != p
  {
    if ps == [] then []
    else WithoutProvider(ps[..|ps| - 1], p) + if ps[|ps| - 1] == p then [] else [ps[|ps| - 1]]
  }

  // ---------------------------------------------------------------- what each operation does to the table

  function NonEmpty(s: Option<string>): Option<string>
  {
    if s.Some? && s.value == "" then None else s
  }

  function Registered(users: seq<User>, email: string, username: Option<string>, password: Hash, code: string,
                      token: string, at: int): Outcome
  {
    var name := NonEmpty(username);
    if ByEmail(users, email).Some? then Outcome(users, Refused(Conflict))
    else if name.Some? && name.value in TakenNames(users) then Outcome(users, Refused(Conflict))
    else
      var u := User(email, name, Some(password), false, Issued(code, at), Some(token), Some(at + TOKEN_TTL), NO_CODE,
                    None, None, None, []);
      Outcome(users + [u], Done(|users|))
  }

  function VerifiedByToken(users: seq<User>, token: string, at: int): Outcome
  {
    match FindFirst(users, (u: User) => u.token == Some(token) && !u.emailVerified)
    case None => Outcome(users, Refused(InvalidToken))
    case Some(i) =>
      if Expired(users[i].tokenExpiry, at) then Outcome(users, Refused(CodeExpired))
      else Outcome(users[i := users[i].(emailVerified := true, token := None, tokenExpiry := None)], Done(i))
  }

  /** One more wrong guess for every unverified row with this email. */
  function Guessed(users: seq<User>, email: string): (r: seq<User>)
    ensures |r| == |users|
    ensures forall i :: 0 <= i < |users| ==> r[i] == GuessedRow(users[i], email)
  {
    seq(|users|, i requires 0 <= i < |users| => GuessedRow(users[i], email))
  }

  function GuessedRow(u: User, email: string): User
  {
    if u.email == email && !u.emailVerified then
      u.(verification := u.verification.(attempts := u.verification.attempts + 1))
    else u
  }

  function Accepted(u: User): User
  {
    u.(emailVerified := true, verification := CodeSlot(None, None, true, 0, u.verification.sentAt), token := None,
       tokenExpiry := None)
  }

  function VerifiedByCode(users: seq<User>, email: string, code: string, at: int): Outcome
  {
    match FindFirst(users, (u: User) => u.email == email && u.verification.code == Some(code) && !u.emailVerified)
    case None => Outcome(Guessed(users, email), Refused(InvalidCode))
    case Some(i) =>
      var slot := users[i].verification;
      if slot.used then Outcome(users, Refused(CodeUsed))
      else if Expired(slot.expiry, at) then Outcome(users, Refused(CodeExpired))
      else if slot.attempts >= MAX_ATTEMPTS then Outcome(users, Refused(TooManyAttempts))
      else Outcome(users[i := Accepted(users[i])], Done(i))
  }

  function Resent(users: seq<User>, email: string, code: string, at: int): Outcome
  {
    match ByEmail(users, email)
    case None => Outcome(users, Unknown)
    case Some(i) =>
      if users[i].emailVerified then Outcome(users, Refused(AlreadyVerified))
      else if CoolingDown(users[i].verification, at) then Outcome(users, Refused(RateLimited))
      else Outcome(users[i := users[i].(verification := Issued(code, at))], Done(i))
  }

  function Forgotten(users: seq<User>, email: string, code: string, at: int): Outcome
  {
    match ByEmail(users, email)
    case None => Outcome(users, Unknown)
    case Some(i) =>
      if CoolingDown(users[i].reset, at) then Outcome(users, Refused(RateLimited))
      else Outcome(users[i := users[i].(reset := Issued(code, at))], Done(i))
  }

  function ByResetCode(users: seq<User>, email: string, code: string): Option<nat>
  {
    FindFirst(users, (u: User) => u.email == email && u.reset.code == Some(code))
  }

  function SlotRefusal(slot: CodeSlot, at: int): Option<Reason>
  {
    if slot.used then Some(CodeUsed)
    else if Expired(slot.expiry, at) then Some(CodeExpired)
    else if slot.attempts >= MAX_ATTEMPTS then Some(TooManyAttempts)
    else None
  }

  function ResetCodeChecked(users: seq<User>, email: string, code: string, at: int): Outcome
  {
    match ByResetCode(users, email, code)
    case None =>
      (match ByEmail(users, email)
       case None => Outcome(users, Refused(InvalidCode))
       case Some(j) =>
         if users[j].reset.code.None? then Outcome(users, Refused(InvalidCode))
         else
           var attempts := users[j].reset.attempts + 1;
           Outcome(users[j := users[j].(reset := users[j].reset.(attempts := attempts))],
                   Refused(if attempts >= MAX_ATTEMPTS then AttemptsExhausted else InvalidCode)))
    case Some(i) =>
      (match SlotRefusal(users[i].reset, at)
       case Some(reason) => Outcome(users, Refused(reason))
       case None => Outcome(users, Done(i)))
  }

  function PasswordReset(users: seq<User>, email: string, code: string, password: Hash, at: int): Outcome
  {
    match ByResetCode(users, email, code)
    case None => Outcome(users, Refused(InvalidCode))
    case Some(i) =>
      (match SlotRefusal(users[i].reset, at)
       case Some(reason) => Outcome(users, Refused(reason))
       case None => Outcome(users[i := users[i].(password := Some(password),
                                                 reset := CodeSlot(None, None, true, 0, None))], Done(i)))
  }

  function SignedIn(users: seq<User>, p: Profile): Outcome
  {
    match ByProviderId(users, p.provider, p.id)
    case Some(i) => Outcome(users, Done(i))
    case None =>
      (match ByEmail(users, p.email)
       case Some(i) =>
         var u := WithId(users[i], p.provider, Some(p.id));
         Outcome(users[i := u.(providers := WithProvider(users[i].providers, p.provider),
                               emailVerified := p.emailVerified || users[i].emailVerified)], Done(i))
       case None => Outcome(users + [NewOAuthUser(users, p)], Done(|users|)))
  }

  function NewOAuthUser(users: seq<User>, p: Profile): User
  {
    var u := User(p.email, Some(FreeUsername(TakenNames(users), BaseUsername(p.email))), None, p.emailVerified,
                  NO_CODE, None, None, NO_CODE, None, None, None, [p.provider]);
    WithId(u, p.provider, Some(p.id))
  }

  /** Linking; only Google and Facebook have an endpoint. */
  function Linked(users: seq<User>, userId: nat, provider: Provider, id: string): Outcome
  {
    if userId >= |users| then Outcome(users, Refused(NotFound))
    else if OtherHas(users, userId, provider, id) then Outcome(users, Refused(Conflict))
    else
      var u := users[userId];
      Outcome(users[userId := WithId(u, provider, Some(id)).(providers := WithProvider(u.providers, provider))],
              Done(userId))
  }

  predicate OtherHas(users: seq<User>, userId: nat, provider: Provider, id: string)
  {
    exists i :: 0 <= i < |users| && i != userId && IdOf(users[i], provider) == Some(id)
  }

  function Unlinked(users: seq<User>, userId: nat, provider: Provider): Outcome
  {
    if userId >= |users| then Outcome(users, Refused(NotFound))
    else
      var u := users[userId];
      var others := WithoutProvider(u.providers, provider);
      if provider !in u.providers then Outcome(users, Refused(NotFound))
      else if u.password.None? && others == [] then Outcome(users, Refused(LastMethod))
      else Outcome(users[userId := WithId(u, provider, None).(providers := others)], Done(userId))
  }

  // ---------------------------------------------------------------- the service object

  class AuthService {
    var users: seq<User>

    constructor ()
      ensures users == []
    {
      users := [];
    }

    method Register(email: string, username: Option<string>, password: Hash, code: string, token: string, now: int)
      returns (reply: Reply)
      modifies this
      ensures Outcome(users, reply) == Registered(old(users), email, username, password, code, token, now)
    {
      if ByEmail(users, email).Some? {
        return Refused(Conflict);
      }
      var name := NonEmpty(username);
      if name.Some? && name.value in TakenNames(users) {
        return Refused(Conflict);
      }
      var slot := CodeSlot(Some(code), Some(now + CODE_TTL), false, 0, Some(now));
      reply := Done(|users|);
      users := users + [User(email, name, Some(password), false, slot, Some(token), Some(now + TOKEN_TTL), NO_CODE,
                             None, None, None, [])];
    }

    method VerifyEmail(token: string, now: int) returns (reply: Reply)
      modifies this
      ensures Outcome(users, reply) == VerifiedByToken(old(users), token, now)
    {
      var found := FindFirst(users, (u: User) => u.token == Some(token) && !u.emailVerified);
      if found.None? {
        return Refused(InvalidToken);
      }
      var user := users[found.value];
      if Expired(user.tokenExpiry, now) {
        return Refused(CodeExpired);
      }
      user := user.(emailVerified := true, token := None, tokenExpiry := None);
      users := users[found.value := user];
      return Done(found.value);
    }

    method VerifyEmailWithCode(email: string, code: string, now: int) returns (reply: Reply)
      modifies this
      ensures Outcome(users, reply) == VerifiedByCode(old(users), email, code, now)
    {
      var matches := (u: User) => u.email == email && u.verification.code == Some(code) && !u.emailVerified;
      var found := FindFirst(users, matches);
      if found.None? {
        users := Guessed(users, email);
        return Refused(InvalidCode);
      }
      var user := users[found.value];
      if user.verification.used {
        return Refused(CodeUsed);
      }
      if Expired(user.verification.expiry, now) {
        return Refused(CodeExpired);
      }
      if user.verification.attempts >= MAX_ATTEMPTS {
        return Refused(TooManyAttempts);
      }
      user := user.(emailVerified := true, token := None, tokenExpiry := None,
                    verification := CodeSlot(None, None, true, 0, user.verification.sentAt));
      users := users[found.value := user];
      return Done(found.value);
    }

    method ResendVerificationCode(email: string, code: string, now: int) returns (reply: Reply)
      modifies this
      ensures Outcome(users, reply) == Resent(old(users), email, code, now)
    {
      var found := ByEmail(users, email);
      if found.None? {
        return Unknown;
      }
      var user := users[found.value];
      if user.emailVerified {
        return Refused(AlreadyVerified);
      }
      if user.verification.sentAt.Some? {
        var timeSinceLastSent := now - user.verification.sentAt.value;
        if timeSinceLastSent < COOLDOWN {
          return Refused(RateLimited);
        }
      }
      user := user.(verification := CodeSlot(Some(code), Some(now + CODE_TTL), false, 0, Some(now)));
      users := users[found.value := user];
      return Done(found.value);
    }

    /** Same steps under the older name. */
    method ResendVerificationEmail(email: string, code: string, now: int) returns (reply: Reply)
      modifies this
      ensures Outcome(users, reply) == Resent(old(users), email, code, now)
    {
      reply := ResendVerificationCode(email, code, now);
    }

    method ForgotPassword(email: string, code: string, now: int) returns (reply: Reply)
      modifies this
      ensures Outcome(users, reply) == Forgotten(old(users), email, code, now)
    {
      var found := ByEmail(users, email);
      if found.None? {
        return Unknown;
      }
      var user := users[found.value];
      if user.reset.sentAt.Some? {
        var timeSinceLastSent := now - user.reset.sentAt.value;
        if timeSinceLastSent < COOLDOWN {
          return Refused(RateLimited);
        }
      }
      user := user.(reset := CodeSlot(Some(code), Some(now + CODE_TTL), false, 0, Some(now)));
      users := users[found.value := user];
      return Done(found.value);
    }

    method VerifyResetCode(email: string, code: string, now: int) returns (reply: Reply)
      modifies this
      ensures Outcome(users, reply) == ResetCodeChecked(old(users), email, code, now)
    {
      var found := ByResetCode(users, email, code);
      if found.None? {
        var existing := ByEmail(users, email);
        if existing.Some? && users[existing.value].reset.code.Some? {
          var user := users[existing.value];
          var newAttempts := user.reset.attempts + 1;
          user := user.(reset := user.reset.(attempts := newAttempts));
          users := users[existing.value := user];
          if newAttempts >= MAX_ATTEMPTS {
            return Refused(AttemptsExhausted);
          }
        }
        return Refused(InvalidCode);
      }
      var slot := users[found.value].reset;
      if slot.used {
        return Refused(CodeUsed);
      }
      if Expired(slot.expiry, now) {
        return Refused(CodeExpired);
      }
      if slot.attempts >= MAX_ATTEMPTS {
        return Refused(TooManyAttempts);
      }
      return Done(found.value);
    }

    method ResetPassword(email: string, code: string, password: Hash, now: int) returns (reply: Reply)
      modifies this
      ensures Outcome(users, reply) == PasswordReset(old(users), email, code, password, now)
    {
      var found := ByResetCode(users, email, code);
      if found.None? {
        return Refused(InvalidCode);
      }
      var user := users[found.value];
      if user.reset.used {
        return Refused(CodeUsed);
      }
      if Expired(user.reset.expiry, now) {
        return Refused(CodeExpired);
      }
      if user.reset.attempts >= MAX_ATTEMPTS {
        return Refused(TooManyAttempts);
      }
      user := user.(password := Some(password), reset := CodeSlot(None, None, true, 0, None));
      users := users[found.value := user];
      return Done(found.value);
    }

    method FindOrCreateOAuthUser(profile: Profile) returns (reply: Reply)
      modifies this
      ensures Outcome(users, reply) == SignedIn(old(users), profile)
    {
      var existingByProviderId := ByProviderId(users, profile.provider, profile.id);
      if existingByProviderId.Some? {
        return Done(existingByProviderId.value);
      }
      var existingByEmail := ByEmail(users, profile.email);
      if existingByEmail.Some? {
        var user := users[existingByEmail.value];
        user := WithId(user, profile.provider, Some(profile.id))
          .(providers := WithProvider(user.providers, profile.provider),
            emailVerified := profile.emailVerified || user.emailVerified);
        users := users[existingByEmail.value := user];
        return Done(existingByEmail.value);
      }
      var username := FindFreeUsername(TakenNames(users), BaseUsername(profile.email));
      var user := User(profile.email, Some(username), None, profile.emailVerified, NO_CODE, None, None, NO_CODE, None,
                       None, None, [profile.provider]);
      user := WithId(user, profile.provider, Some(profile.id));
      reply := Done(|users|);
      users := users + [user];
    }

    method LinkAccount(userId: nat, provider: Provider, id: string) returns (reply: Reply)
      modifies this
      ensures Outcome(users, reply) == Linked(old(users), userId, provider, id)
    {
      if userId >= |users| {
        return Refused(NotFound);
      }
      var user := users[userId];
      if OtherHas(users, userId, provider, id) {
        return Refused(Conflict);
      }
      user := WithId(user, provider, Some(id)).(providers := WithProvider(user.providers, provider));
      users := users[userId := user];
      return Done(userId);
    }

    method LinkGoogleAccount(userId: nat, googleId: string) returns (reply: Reply)
      modifies this
      ensures Outcome(users, reply) == Linked(old(users), userId, Google, googleId)
    {
      reply := LinkAccount(userId, Google, googleId);
    }

    method LinkFacebookAccount(userId: nat, facebookId: string) returns (reply: Reply)
      modifies this
      ensures Outcome(users, reply) == Linked(old(users), userId, Facebook, facebookId)
    {
      reply := LinkAccount(userId, Facebook, facebookId);
    }

    method UnlinkSocialAccount(userId: nat, provider: Provider) returns (reply: Reply)
      modifies this
      ensures Outcome(users, reply) == Unlinked(old(users), userId, provider)
    {
      if userId >= |users| {
        return Refused(NotFound);
      }
      var user := users[userId];
      if provider !in user.providers {
        return Refused(NotFound);
      }
      var otherProviders := WithoutProvider(user.providers, provider);
      if user.password.None? && |otherProviders| == 0 {
        return Refused(LastMethod);
      }
      users := users[userId := WithId(user, provider, None).(providers := otherProviders)];
      return Done(userId);
    }
  }

  // ---------------------------------------------------------------- steps and runs

  datatype Step =
    | Register(email: string, username: Option<string>, password: Hash, code: string, token: string, at: int)
    | VerifyToken(token: string, at: int)
    | VerifyCode(email: string, code: string, at: int)
    | Resend(email: string, code: string, at: int)
    | Forgot(email: string, code: string, at: int)
    | CheckReset(email: string, code: string, at: int)
    | ResetPassword(email: string, code: string, password: Hash, at: int)
    | SignIn(profile: Profile, at: int)
    | Link(userId: nat, provider: Provider, id: string, at: int)
    | Unlink(userId: nat, provider: Provider, at: int)

  function Run(users: seq<User>, s: Step): Outcome
  {
    match s
    case Register(email, username, password, code, token, at) =>
      Registered(users, email, username, password, code, token, at)
    case VerifyToken(token, at) => VerifiedByToken(users, token, at)
    case VerifyCode(email, code, at) => VerifiedByCode(users, email, code, at)
    case Resend(email, code, at) => Resent(users, email, code, at)
    case Forgot(email, code, at) => Forgotten(users, email, code, at)
    case CheckReset(email, code, at) => ResetCodeChecked(users, email, code, at)
    case ResetPassword(email, code, password, at) => PasswordReset(users, email, code, password, at)
    case SignIn(profile, _) => SignedIn(users, profile)
    case Link(userId, provider, id, _) => Linked(users, userId, provider, id)
    case Unlink(userId, provider, _) => Unlinked(users, userId, provider)
  }

  /** The table after a run, oldest step first. */
  function After(steps: seq<Step>): seq<User>
  {
    if steps == [] then [] else Run(After(steps[..|steps| - 1]), steps[|steps| - 1]).users
  }

  predicate Chronological(steps: seq<Step>)
  {
    forall i, j :: 0 <= i < j < |steps| ==> steps[i].at <= steps[j].at
  }
}
