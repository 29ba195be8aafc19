/**
 * The server's account rules: `register`, `login` and `complete_onboarding` over the
 * user table. The table is a map from e-mail address to account (the `email` column is
 * unique); password hashing and its check are inputs, since bcrypt salts at random.
 */
module Accounts {
  import opened Common

  /** A row of the `user` table. The goal and equipment lists are held as lists, not JSON text. */
  datatype Account = Account(
    id: nat,
    email: string,
    name: string,
    passwordHash: string,
    goals: Option<seq<string>>,
    schedule: Option<string>,
    equipment: Option<seq<string>>,
    experienceLevel: Option<string>,
    onboardingCompleted: bool)

  /** The JSON body of a request; a key that is missing or `null` is `None`. */
  datatype RegisterRequest = RegisterRequest(email: Option<string>, password: Option<string>, name: Option<string>)

  datatype LoginRequest = LoginRequest(email: Option<string>, password: Option<string>)

  /** For the lists, `None` is a missing key; for the texts, a missing key or `null`. */
  datatype OnboardingRequest = OnboardingRequest(
    goals: Option<seq<string>>,
    schedule: Option<string>,
    equipment: Option<seq<string>>,
    experienceLevel: Option<string>)

  /** The HTTP answer: 201, 200, 200, 400, 401, 404 or 500. */
  datatype Response =
    | Created(user: Account)
    | LoggedIn(user: Account)
    | Updated(user: Account)
    | BadRequest(error: string)
    | Unauthorized(error: string)
    | NotFound(error: string)
    | ServerError

  const MissingRegisterFields := "Email, password, and name are required"
  const EmailTaken := "Email already registered"
  const MissingLoginFields := "Email and password are required"
  const BadCredentials := "Invalid credentials"
  const UnknownUser := "User not found"

  /** Python truthiness of an optional text: present and not empty. */
  predicate Truthy(v: Option<string>) {
    v.Some? && v.value != ""
  }

  /**
   * Keys are the accounts' addresses, every id was handed out before `nextId`, and no two
   * accounts share an id.
   */
  predicate ValidUsers(users: map<string, Account>, nextId: nat) {
    && (forall e :: e in users ==> users[e].email == e && users[e].id < nextId)
    && (forall e1, e2 :: e1 in users && e2 in users && users[e1].id == users[e2].id ==> e1 == e2)
  }

  // ---------------------------------------------------------------------------------
  // register

  /** The answer `register` gives when it refuses the request, or `None` when it creates the user. */
  function RegisterRejection(users: map<string, Account>, req: Option<RegisterRequest>): (r: Option<Response>)
    ensures r.None? <==>
      req.Some? && Truthy(req.value.email) && Truthy(req.value.password) && Truthy(req.value.name)
      && req.value.email.value !in users
    ensures req.None? ==> r == Some(ServerError)
    ensures r.Some? && req.Some? ==> r.value.BadRequest?
    ensures r == Some(BadRequest(MissingRegisterFields)) <==>
      req.Some? && !(Truthy(req.value.email) && Truthy(req.value.password) && Truthy(req.value.name))
    ensures r == Some(BadRequest(EmailTaken)) <==>
      req.Some? && Truthy(req.value.email) && Truthy(req.value.password) && Truthy(req.value.name)
      && req.value.email.value in users
  {
    match req
    case None => Some(ServerError)
    case Some(q) =>
      if !Truthy(q.email) || !Truthy(q.password) || !Truthy(q.name) then Some(BadRequest(MissingRegisterFields))
      else if q.email.value in users then Some(BadRequest(EmailTaken))
      else None
  }

  /** The row `register` inserts: not yet onboarded, every profile field `NULL`. */
  function NewAccount(id: nat, q: RegisterRequest, hash: string): Account
    requires Truthy(q.email) && Truthy(q.name)
  {
    Account(id, q.email.value, q.name.value, hash, None, None, None, None, false)
  }

  /** Registering keeps the table valid and adds exactly one account, leaving the others as they were. */
  lemma RegisterAddsOne(users: map<string, Account>, nextId: nat, q: RegisterRequest, hash: string)
    requires ValidUsers(users, nextId) && RegisterRejection(users, Some(q)).None?
    ensures var a := NewAccount(nextId, q, hash);
      && ValidUsers(users[a.email := a], nextId + 1)
      && |users[a.email := a]| == |users| + 1
      && (forall e :: e in users ==> e in users[a.email := a] && users[a.email := a][e] == users[e])
  {
    var a := NewAccount(nextId, q, hash);
    assert a.email !in users;
    assert users[a.email := a].Keys == users.Keys + {a.email};
  }

  /** A second registration under the same address is refused. */
  lemma RegisterTwiceRefused(users: map<string, Account>, nextId: nat, q: RegisterRequest, hash: string)
    requires RegisterRejection(users, Some(q)).None?
    ensures var a := NewAccount(nextId, q, hash);
      RegisterRejection(users[a.email := a], Some(q)) == Some(BadRequest(EmailTaken))
  {
  }

  // ---------------------------------------------------------------------------------
  // login

  /**
   * `login`: the account answers when the address is registered and `checkPassword`
   * (bcrypt's check of a password against a stored hash) accepts the password.
   */
  function Login(users: map<string, Account>, req: Option<LoginRequest>, checkPassword: (string, string) -> bool): (r: Response)
    ensures r.LoggedIn? <==>
      req.Some? && Truthy(req.value.email) && Truthy(req.value.password) && req.value.email.value in users
      && checkPassword(req.value.password.value, users[req.value.email.value].passwordHash)
    ensures r.LoggedIn? ==> r.user == users[req.value.email.value]
    ensures r == BadRequest(MissingLoginFields) <==> req.Some? && !(Truthy(req.value.email) && Truthy(req.value.password))
    ensures r == ServerError <==> req.None?
    ensures r == Unauthorized(BadCredentials) <==>
      req.Some? && Truthy(req.value.email) && Truthy(req.value.password)
      && !(req.value.email.value in users
           && checkPassword(req.value.password.value, users[req.value.email.value].passwordHash))
    ensures r.LoggedIn? || r.BadRequest? || r.ServerError? || r == Unauthorized(BadCredentials)
  {
    match req
    case None => ServerError
    case Some(q) =>
      if !Truthy(q.email) || !Truthy(q.password) then BadRequest(MissingLoginFields)
      else if q.email.value in users && checkPassword(q.password.value, users[q.email.value].passwordHash) then
        LoggedIn(users[q.email.value])
      else Unauthorized(BadCredentials)
  }

  /** An unknown address and a wrong password get the same answer. */
  lemma LoginHidesUnknownAddress(users: map<string, Account>, email: string, password: string,
                                 checkPassword: (string, string) -> bool)
    requires email != "" && password != ""
    requires email !in users || !checkPassword(password, users[email].passwordHash)
    ensures Login(users, Some(LoginRequest(Some(email), Some(password))), checkPassword) == Unauthorized(BadCredentials)
  {
  }

  /** Once registered, the same address and password log in, provided the hash checks against the password. */
  lemma LoginAfterRegister(users: map<string, Account>, nextId: nat, q: RegisterRequest, hash: string,
                           checkPassword: (string, string) -> bool)
    requires RegisterRejection(users, Some(q)).None?
    requires checkPassword(q.password.value, hash)
    ensures var a := NewAccount(nextId, q, hash);
      Login(users[a.email := a], Some(LoginRequest(q.email, q.password)), checkPassword) == LoggedIn(a)
  {
  }

  // ---------------------------------------------------------------------------------
  // complete_onboarding

  /** The account after `complete_onboarding`: the four fields replaced, the flag set. */
  function Onboarded(a: Account, q: OnboardingRequest): Account {
    a.(goals := Some(q.goals.GetOr([])), schedule := q.schedule, equipment := Some(q.equipment.GetOr([])),
       experienceLevel := q.experienceLevel, onboardingCompleted := true)
  }

  /** Onboarding keeps the table valid. */
  lemma OnboardingKeepsValid(users: map<string, Account>, nextId: nat, e: string, q: OnboardingRequest)
    requires ValidUsers(users, nextId) && e in users
    ensures ValidUsers(users[e := Onboarded(users[e], q)], nextId)
  {
    var after := users[e := Onboarded(users[e], q)];
    assert after.Keys == users.Keys;
  }

  /** Onboarding does not change who can log in. */
  lemma OnboardingKeepsLogin(users: map<string, Account>, e: string, q: OnboardingRequest,
                             req: Option<LoginRequest>, checkPassword: (string, string) -> bool)
    requires e in users
    ensures Login(users[e := Onboarded(users[e], q)], req, checkPassword).LoggedIn?
        <==> Login(users, req, checkPassword).LoggedIn?
  {
    var after := users[e := Onboarded(users[e], q)];
    assert after.Keys == users.Keys;
  }

  /** Onboarding stores the lists, defaulting a missing one to empty, and marks the account onboarded. */
  lemma OnboardingStoresFields(a: Account, q: OnboardingRequest)
    ensures Onboarded(a, q).onboardingCompleted
    ensures Onboarded(a, q).goals == Some(if q.goals.Some? then q.goals.value else [])
    ensures Onboarded(a, q).equipment == Some(if q.equipment.Some? then q.equipment.value else [])
    ensures Onboarded(a, q).schedule == q.schedule && Onboarded(a, q).experienceLevel == q.experienceLevel
    ensures (Onboarded(a, q).id, Onboarded(a, q).email, Onboarded(a, q).name, Onboarded(a, q).passwordHash)
         == (a.id, a.email, a.name, a.passwordHash)
  {
  }

  // ---------------------------------------------------------------------------------
  // The table, updated in place

  class UserStore {
    var users: map<string, Account>
    /** The id the next inserted row receives. */
    var nextId: nat

    ghost predicate Valid()
      reads this
    {
      ValidUsers(users, nextId)
    }

    /** An empty table. */
    constructor ()
      ensures Valid() && users == map[] && nextId == 1
    {
      users := map[];
      nextId := 1;
    }

    /**
     * `register`: refuses a request missing a field or naming a registered address;
     * otherwise inserts one account under that address. `hash` is the bcrypt hash of the
     * password.
     */
    method Register(req: Option<RegisterRequest>, hash: string) returns (r: Response)
      requires Valid()
      modifies this
      ensures Valid()
      ensures RegisterRejection(old(users), req).Some? ==>
        r == RegisterRejection(old(users), req).value && users == old(users) && nextId == old(nextId)
      ensures RegisterRejection(old(users), req).None? ==>
        var a := NewAccount(old(nextId), req.value, hash);
        users == old(users)[a.email := a] && nextId == old(nextId) + 1 && r == Created(a)
    {
      var rejection := RegisterRejection(users, req);
      if rejection.Some? {
        return rejection.value;
      }
      var a := NewAccount(nextId, req.value, hash);
      RegisterAddsOne(users, nextId, req.value, hash);
      users := users[a.email := a];
      nextId := nextId + 1;
      return Created(a);
    }

    /**
     * `complete_onboarding` for the user whose id the token carries: 404 when no account
     * has that id, 500 when it exists but the body is missing, otherwise that account alone is updated.
     */
    method CompleteOnboarding(uid: nat, req: Option<OnboardingRequest>) returns (r: Response)
      requires Valid()
      modifies this
      ensures Valid() && nextId == old(nextId)
      ensures (forall e :: e in old(users) ==> old(users)[e].id != uid) ==>
        r == NotFound(UnknownUser) && users == old(users)
      ensures req.None? ==> users == old(users)
      ensures req.None? && (exists e :: e in old(users) && old(users)[e].id == uid) ==> r == ServerError
      ensures forall e :: e in old(users) && old(users)[e].id == uid && req.Some? ==>
        users == old(users)[e := Onboarded(old(users)[e], req.value)] && r == Updated(users[e])
    {
      if !exists e :: e in users && users[e].id == uid {
        return NotFound(UnknownUser);
      }
      var e :| e in users && users[e].id == uid;
      if req.None? {
        return ServerError;
      }
      var a := Onboarded(users[e], req.value);
      OnboardingKeepsValid(users, nextId, e, req.value);
      users := users[e := a];
      return Updated(a);
    }
  }
}
