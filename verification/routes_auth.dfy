/** The authorization guard wrapped around every protected handler, and the
    two public handlers: signup and login. */
module Auth {

  import opened Outcomes
  import opened Text
  import opened Tokens
  import opened Schema
  import opened Collections

  const BearerPrefix: string := "Bearer "

  /** Truthiness of an optional JSON string: present, not null, not empty. */
  predicate Given(field: Option<string>) {
    field.Some? && field.value != ""
  }

  // ---- The guard ----

  /** The token an Authorization header carries: the header value with one
      leading "Bearer " removed, or the whole value when there is none. */
  function TokenOf(header: string): (t: string)
    ensures header == t || header == BearerPrefix + t
  {
    if StartsWith(header, BearerPrefix) then header[|BearerPrefix|..] else header
  }

  /** Checks the Authorization header at time `now` and yields the user id
      claim of a valid token. */
  function Authenticate(cfg: Config, header: Option<string>, now: nat): (r: Response<Id>)
    ensures !Given(header) ==> r == Fail(MissingToken)
    ensures Given(header) ==> r.Ok? || r == Fail(InvalidToken)
    ensures r.Ok? ==>
      exists c: Claims :: c.userId == Some(r.value) && now < c.exp &&
        (header.value == Issue(cfg, c) || header.value == BearerPrefix + Issue(cfg, c))
  {
    if !Given(header) then Fail(MissingToken)
    else
      match Verify(cfg, TokenOf(header.value), now)
      case None => Fail(InvalidToken)
      case Some(c) => if c.userId.None? then Fail(InvalidToken) else Ok(c.userId.value)
  }

  /** A leading "Bearer " is optional: with or without it the same token is
      verified (for a token that does not itself start with "Bearer "). */
  lemma BearerPrefixOptional(cfg: Config, token: string, now: nat)
    requires token != [] && !StartsWith(token, BearerPrefix)
    ensures Authenticate(cfg, Some(BearerPrefix + token), now) == Authenticate(cfg, Some(token), now)
  {
    assert (BearerPrefix + token)[..|BearerPrefix|] == BearerPrefix;
    assert (BearerPrefix + token)[|BearerPrefix|..] == token;
  }

  /** An issued token carrying a user id authenticates that user, with or
      without the prefix, exactly until it expires; one without a user id
      never does. */
  lemma AuthenticateIssued(cfg: Config, c: Claims, now: nat)
    ensures c.userId.Some? && now < c.exp ==>
      && Authenticate(cfg, Some(BearerPrefix + Issue(cfg, c)), now) == Ok(c.userId.value)
      && Authenticate(cfg, Some(Issue(cfg, c)), now) == Ok(c.userId.value)
    ensures c.userId.None? || c.exp <= now ==>
      && Authenticate(cfg, Some(BearerPrefix + Issue(cfg, c)), now) == Fail(InvalidToken)
      && Authenticate(cfg, Some(Issue(cfg, c)), now) == Fail(InvalidToken)
  {
    var t := Issue(cfg, c);
    assert IsDigit(t[0]);
    assert !StartsWith(t, BearerPrefix);
    BearerPrefixOptional(cfg, t, now);
    VerifyIssued(cfg, c, now);
  }

  /** A protected handler: given the state and the authenticated user id,
      the next state and the response. */
  type Handler<T> = (State, Id) -> (State, Response<T>)

  /** `token_required`: the handler runs only on an authenticated request,
      with the token's user id as its caller; otherwise the request is turned
      away and the state is left as it was. */
  function Guarded<T>(cfg: Config, s: State, header: Option<string>, handler: Handler<T>): (r: (State, Response<T>))
    ensures Authenticate(cfg, header, s.clock).Fail? ==>
      r == (s, Fail(Authenticate(cfg, header, s.clock).error))
    ensures Authenticate(cfg, header, s.clock).Ok? ==>
      r == handler(s, Authenticate(cfg, header, s.clock).value)
  {
    match Authenticate(cfg, header, s.clock)
    case Fail(e) => (s, Fail(e))
    case Ok(caller) => handler(s, caller)
  }

  // ---- Signup ----

  datatype SignupBody = SignupBody(fullname: Option<string>, email: Option<string>, password: Option<string>)

  predicate SignupComplete(body: Option<SignupBody>) {
    body.Some? && Given(body.value.fullname) && Given(body.value.email) && Given(body.value.password)
  }

  predicate EmailTaken(users: map<Id, User>, email: string) {
    exists id :: id in users && users[id].email == email
  }

  /** POST /signup. `salt` is the random salt the password hasher draws.
      SQLite picks the new row id before it checks constraints, so an
      exhausted id sequence fails the insert (500) ahead of the UNIQUE
      check (409). */
  function Signup(cfg: Config, s: State, body: Option<SignupBody>, salt: string): (r: (State, Response<Id>))
    ensures r.1.Fail? ==> r.0 == s
    ensures r.1 == Fail(Validation) <==> !SignupComplete(body)
    ensures r.1 == Fail(ServerError) <==> SignupComplete(body) && s.nextUserId > MaxInteger
    ensures r.1 == Fail(Conflict) <==>
      SignupComplete(body) && s.nextUserId <= MaxInteger && EmailTaken(s.users, body.value.email.value)
    ensures r.1.Ok? || r.1 == Fail(Validation) || r.1 == Fail(ServerError) || r.1 == Fail(Conflict)
    ensures r.1.Ok? ==>
      var id := r.1.value;
      && id == s.nextUserId && r.0.nextUserId > id && Bindable(id)
      && (IdsIssued(s) ==> id !in s.users)
      && r.0.users.Keys == s.users.Keys + {id}
      && (forall other :: other in s.users && other != id ==> r.0.users[other] == s.users[other])
      && r.0.users[id].fullname == body.value.fullname.value
      && r.0.users[id].email == body.value.email.value
      && CheckPassword(cfg, r.0.users[id].password, body.value.password.value)
      && r.0.users[id].createdAt == s.clock
      && r.0.moods == s.moods && r.0.sessions == s.sessions && r.0.clock == s.clock
      && r.0.nextMoodId == s.nextMoodId && r.0.nextSessionId == s.nextSessionId
  {
    if !SignupComplete(body) then (s, Fail(Validation))
    else
      var b := body.value;
      if s.nextUserId > MaxInteger then (s, Fail(ServerError))
      else if EmailTaken(s.users, b.email.value) then (s, Fail(Conflict))
      else
        var id := s.nextUserId;
        var user := User(b.fullname.value, b.email.value, HashPassword(cfg, salt, b.password.value), s.clock);
        (s.(users := s.users[id := user], nextUserId := id + 1), Ok(id))
  }

  // ---- Login ----

  datatype LoginBody = LoginBody(email: Option<string>, password: Option<string>)

  /** What a successful login returns: the token and the user's public fields. */
  datatype LoginView = LoginView(token: string, id: Id, fullname: string, email: string)

  predicate LoginComplete(body: Option<LoginBody>) {
    body.Some? && Given(body.value.email) && Given(body.value.password)
  }

  /** `SELECT ... WHERE email = ?` followed by fetchone: the user registered
      under `email`. The UNIQUE constraint makes it the only one; without it
      the least id would be taken. */
  function UserWithEmail(users: map<Id, User>, email: string): (r: Option<Id>)
    ensures r.Some? ==> r.value in users && users[r.value].email == email
    ensures r.None? <==> !EmailTaken(users, email)
    ensures EmailsUnique(users) ==>
      forall id :: id in users && users[id].email == email ==> r == Some(id)
  {
    if EmailTaken(users, email) then
      var matching := set id | id in users && users[id].email == email;
      var known :| known in users && users[known].email == email;
      assert known in matching;
      HasLeast(matching);
      var id :| IsLeast(id, matching);
      Some(id)
    else None
  }

  /** POST /login. Unknown email and wrong password fail alike. A token is
      valid for 24 hours from the clock's reading at login. */
  function Login(cfg: Config, s: State, body: Option<LoginBody>): (r: Response<LoginView>)
    ensures r == Fail(Validation) <==> !LoginComplete(body)
    ensures r.Ok? || r == Fail(Validation) || r == Fail(BadCredentials)
    ensures r.Ok? ==>
      var v := r.value;
      && v.id in s.users
      && v.email == s.users[v.id].email == body.value.email.value
      && v.fullname == s.users[v.id].fullname
      && CheckPassword(cfg, s.users[v.id].password, body.value.password.value)
      && Verify(cfg, v.token, s.clock) == Some(Claims(Some(v.id), v.email, s.clock + TokenLifetime))
    ensures LoginComplete(body) && EmailsUnique(s.users) ==>
      (r.Ok? <==> exists id :: id in s.users && s.users[id].email == body.value.email.value
                          && CheckPassword(cfg, s.users[id].password, body.value.password.value))
  {
    if !LoginComplete(body) then Fail(Validation)
    else
      var email := body.value.email.value;
      var password := body.value.password.value;
      match UserWithEmail(s.users, email)
      case None => Fail(BadCredentials)
      case Some(id) =>
        var user := s.users[id];
        if !CheckPassword(cfg, user.password, password) then Fail(BadCredentials)
        else
          var claims := Claims(Some(id), user.email, s.clock + TokenLifetime);
          VerifyIssued(cfg, claims, s.clock);
          Ok(LoginView(Issue(cfg, claims), id, user.fullname, user.email))
  }
}
