/** campus-connect-backend-main/controllers/authController.js: registration
    and login over the user collection. The two libraries are parameters:
    the bcrypt hash of a new password is given to `RegisterUser`, `compare`
    stands for `bcrypt.compare` and `sign` for `jwt.sign` of a user id. */
module AuthController {
  import opened Strings
  import opened AppErrors
  import opened Users

  const MISSING_REGISTRATION := "Name, email, and password are required"
  const SHORT_PASSWORD := "Password must be at least 6 characters"
  const INVALID_EMAIL := "Please enter a valid email address"
  const EMAIL_TAKEN := "An account with this email already exists"
  const MISSING_LOGIN := "Email and password are required"
  const NO_ACCOUNT := "No account found with this | email"
  const WRONG_PASSWORD := "Incorrect password"

  const MIN_PASSWORD: nat := 6
  const DEFAULT_ROLE := "user"

  /** A handler's outcome: the JSON answer with its token and profile, or the
      plain `Error` handed to `next`. */
  datatype AuthReply =
    | Welcome(status: int, answer: string, token: string, user: Profile)
    | Refused(error: AppError)

  function Refuse(message: string): AuthReply {
    Refused(PlainError("Error", message))
  }

  /** `email.toLowerCase().trim()`, the key accounts are stored and looked up
      under: it is lower-case with no white space at either end, and an
      address without white space is only lower-cased. */
  function NormalEmail(email: string): (k: string)
    ensures NormalForm(k)
    ensures !HasSpace(email) ==> k == ToLower(email)
  {
    var lower := ToLower(email);
    ToLowerIdempotent(email);
    TrimKeepsLower(lower);
    TrimIdempotent(lower);
    ToLowerKeepsSpaces(email);
    if !HasSpace(email) then TrimOfSpaceFree(lower); Trim(lower) else Trim(lower)
  }

  /** Lower-case, with no white space at either end. */
  predicate NormalForm(e: string) {
    Trim(e) == e && ToLower(e) == e
  }

  // ---------------------------------------------------------------------------
  // registerUser
  // ---------------------------------------------------------------------------

  /** The checks on the body alone: all three fields, a password of at
      least six characters and an address the pattern accepts. */
  predicate FieldsAccepted(name: Option<string>, email: Option<string>, password: Option<string>) {
    Given(name) && Given(email) && Given(password) && |password.value| >= MIN_PASSWORD
    && LooksLikeEmail(email.value)
  }

  /** Why a registration is refused, checked in the handler's order: a
      missing field, a short password, an address the pattern refuses, then
      an address already taken once normalised. */
  function RegisterRefusal(users: seq<User>, name: Option<string>, email: Option<string>,
                           password: Option<string>): (r: Option<string>)
    ensures r.None? <==> FieldsAccepted(name, email, password) && AddressFree(users, NormalEmail(email.value))
  {
    if !(Given(name) && Given(email) && Given(password)) then Some(MISSING_REGISTRATION)
    else if |password.value| < MIN_PASSWORD then Some(SHORT_PASSWORD)
    else if !LooksLikeEmail(email.value) then Some(INVALID_EMAIL)
    else if FindByEmail(users, NormalEmail(email.value)).Some? then Some(EMAIL_TAKEN)
    else None
  }

  /** The order of the checks: each message is given exactly when the checks
      before it pass and its own fails. */
  lemma RegistrationOrder(users: seq<User>, name: Option<string>, email: Option<string>,
                          password: Option<string>)
    ensures var r := RegisterRefusal(users, name, email, password);
            r == Some(MISSING_REGISTRATION) <==> !(Given(name) && Given(email) && Given(password))
    ensures var r := RegisterRefusal(users, name, email, password);
            r == Some(SHORT_PASSWORD) <==>
              Given(name) && Given(email) && Given(password) && |password.value| < MIN_PASSWORD
    ensures var r := RegisterRefusal(users, name, email, password);
            r == Some(INVALID_EMAIL) <==>
              Given(name) && Given(email) && Given(password) && |password.value| >= MIN_PASSWORD
              && !LooksLikeEmail(email.value)
    ensures var r := RegisterRefusal(users, name, email, password);
            r == Some(EMAIL_TAKEN) <==>
              FieldsAccepted(name, email, password) && !AddressFree(users, NormalEmail(email.value))
  {
  }

  /** An address the pattern accepts has no white space, so its normal form
      is the address lower-cased and is not empty. */
  lemma AcceptedEmailNormal(email: string)
    requires LooksLikeEmail(email)
    ensures NormalEmail(email) == ToLower(email) && |NormalEmail(email)| == |email| > 0
  {
    assert !HasSpace(email);
  }

  /** The account `User.create` stores: the trimmed name, the normalised
      address, the hash and the role 'user'. */
  function NewAccount(id: nat, name: string, email: string, hashed: string): User {
    User(id, Trim(name), NormalEmail(email), hashed, DEFAULT_ROLE)
  }

  function RegisteredAnswer(name: string): string {
    "Welcome to MMMUT, **" + name + "**! Your account is ready."
  }

  /** A registration that passes the checks keeps the collection valid, and
      the new account holds the address lower-cased, a name with no white
      space at either end and the role 'user'. */
  lemma RegisterKeepsValid(users: seq<User>, nextId: nat, name: Option<string>, email: Option<string>,
                           password: Option<string>, hashed: string)
    requires AccountsValid(users, nextId)
    requires RegisterRefusal(users, name, email, password).None?
    ensures var u := NewAccount(nextId, name.value, email.value, hashed);
            AccountsValid(users + [u], nextId + 1)
            && u.email == ToLower(email.value) && NormalForm(u.email)
            && Trim(u.name) == u.name && u.role == "user"
  {
    AcceptedEmailNormal(email.value);
    var u := NewAccount(nextId, name.value, email.value, hashed);
    TrimIdempotent(name.value);
    AppendAccount(users, nextId, u);
  }

  /** `registerUser`: a refused registration changes nothing; otherwise the
      new account is stored last and answered with status 201, a token for
      its id and its profile. */
  method RegisterUser(store: UserStore, name: Option<string>, email: Option<string>,
                      password: Option<string>, hashed: string, sign: nat -> string) returns (r: AuthReply)
    requires store.Valid()
    modifies store
    ensures store.Valid()
    ensures RegisterRefusal(old(store.users), name, email, password).Some? ==>
              r == Refuse(RegisterRefusal(old(store.users), name, email, password).value)
              && store.users == old(store.users) && store.nextId == old(store.nextId)
    ensures RegisterRefusal(old(store.users), name, email, password).None? ==>
              store.users == old(store.users) + [NewAccount(old(store.nextId), name.value, email.value, hashed)]
              && store.nextId == old(store.nextId) + 1
    ensures RegisterRefusal(old(store.users), name, email, password).None? ==>
              r == Welcome(201, RegisteredAnswer(Trim(name.value)), sign(old(store.nextId)),
                           ProfileOf(NewAccount(old(store.nextId), name.value, email.value, hashed)))
  {
    var refusal := RegisterRefusal(store.users, name, email, password);
    if refusal.Some? {
      return Refuse(refusal.value);
    }
    var u := store.Insert(NewAccount(0, name.value, email.value, hashed));
    r := Welcome(201, RegisteredAnswer(u.name), sign(u.id), ProfileOf(u));
  }

  /** Once an address is registered, registering it again in any spelling
      with the same normal form is refused, with the taken-address message
      when the other checks pass. */
  lemma RegisterRefusesDuplicate(users: seq<User>, nextId: nat, name: Option<string>, email: Option<string>,
                                 password: Option<string>, hashed: string,
                                 name2: Option<string>, email2: string, password2: Option<string>)
    requires RegisterRefusal(users, name, email, password).None?
    requires NormalEmail(email2) == NormalEmail(email.value)
    ensures var after := users + [NewAccount(nextId, name.value, email.value, hashed)];
            RegisterRefusal(after, name2, Some(email2), password2).Some?
    ensures var after := users + [NewAccount(nextId, name.value, email.value, hashed)];
            Given(name2) && Given(password2) && |password2.value| >= MIN_PASSWORD && LooksLikeEmail(email2)
            ==> RegisterRefusal(after, name2, Some(email2), password2) == Some(EMAIL_TAKEN)
  {
    var after := users + [NewAccount(nextId, name.value, email.value, hashed)];
    var k := NormalEmail(email2);
    assert after[|users|].email == k;
    assert !AddressFree(after, k);
    RegistrationOrder(after, name2, Some(email2), password2);
  }

  // ---------------------------------------------------------------------------
  // loginUser
  // ---------------------------------------------------------------------------

  function LoggedInAnswer(name: string): string {
    "Welcome back, **" + name + "**! You're now logged in."
  }

  /** `loginUser`: missing fields, then an unknown normalised address, then a
      password `compare` refuses; otherwise status 200 with a token for the
      account and its profile. With one account per address, the password
      message is given exactly when the account exists and the password does
      not match it. */
  function LoginUser(users: seq<User>, email: Option<string>, password: Option<string>,
                     compare: (string, string) -> bool, sign: nat -> string): (r: AuthReply)
    ensures r == Refuse(MISSING_LOGIN) <==> !(Given(email) && Given(password))
    ensures r == Refuse(NO_ACCOUNT) <==>
              Given(email) && Given(password)
              && forall i :: 0 <= i < |users| ==> users[i].email != NormalEmail(email.value)
    ensures r.Welcome? || r == Refuse(MISSING_LOGIN) || r == Refuse(NO_ACCOUNT) || r == Refuse(WRONG_PASSWORD)
    ensures r.Welcome? ==>
              Given(email) && Given(password) && r.status == 200
              && exists i :: 0 <= i < |users| && users[i].email == NormalEmail(email.value)
                   && compare(password.value, users[i].password)
                   && r == Welcome(200, LoggedInAnswer(users[i].name), sign(users[i].id), ProfileOf(users[i]))
    ensures EmailsDistinct(users) ==>
              (r == Refuse(WRONG_PASSWORD) <==>
                 Given(email) && Given(password)
                 && exists i :: 0 <= i < |users| && users[i].email == NormalEmail(email.value)
                      && !compare(password.value, users[i].password))
  {
    if !(Given(email) && Given(password)) then Refuse(MISSING_LOGIN)
    else
      var found := FindByEmail(users, NormalEmail(email.value));
      if found.None? then Refuse(NO_ACCOUNT)
      else
        var u := users[found.value];
        if !compare(password.value, u.password) then Refuse(WRONG_PASSWORD)
        else Welcome(200, LoggedInAnswer(u.name), sign(u.id), ProfileOf(u))
  }

  /** Login reaches the account found under the normalised address when
      `compare` accepts the password against its hash. */
  lemma LoginReaches(users: seq<User>, email: Option<string>, password: Option<string>,
                     compare: (string, string) -> bool, sign: nat -> string, i: nat)
    requires Given(email) && Given(password)
    requires FindByEmail(users, NormalEmail(email.value)) == Some(i)
    requires compare(password.value, users[i].password)
    ensures LoginUser(users, email, password, compare, sign)
            == Welcome(200, LoggedInAnswer(users[i].name), sign(users[i].id), ProfileOf(users[i]))
  {
  }

  /** Registering and then logging in with the same password and the address
      in any spelling with the same normal form reaches the new account,
      provided `compare` accepts the password against its hash. */
  lemma RegisterThenLogin(users: seq<User>, nextId: nat, name: Option<string>, email: Option<string>,
                          password: Option<string>, hashed: string, email2: string,
                          compare: (string, string) -> bool, sign: nat -> string)
    requires RegisterRefusal(users, name, email, password).None?
    requires compare(password.value, hashed)
    requires NormalEmail(email2) == NormalEmail(email.value)
    ensures var u := NewAccount(nextId, name.value, email.value, hashed);
            LoginUser(users + [u], Some(email2), password, compare, sign)
            == Welcome(200, LoggedInAnswer(u.name), sign(nextId), ProfileOf(u))
  {
    var u := NewAccount(nextId, name.value, email.value, hashed);
    var after := users + [u];
    var key := NormalEmail(email2);
    assert FieldsAccepted(name, email, password) && AddressFree(users, key);
    AcceptedEmailNormal(email.value);
    assert email2 != "" by {
      assert |NormalEmail(email2)| > 0;
      assert NormalEmail("") == "";
    }
    FindAppended(users, u);
    assert after[|users|] == u;
    LoginReaches(after, Some(email2), password, compare, sign, |users|);
  }
}
