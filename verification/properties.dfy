/** Properties that relate several requests: the schema's constraints are
    kept by every handler, and the flows a client goes through (sign up, log
    in, use the token, create, end, delete) behave as promised. */
module Properties {

  import opened Outcomes
  import opened Tokens
  import opened Schema
  import opened Auth
  import opened Stats
  import opened Mood
  import opened App

  // ---- The invariant ----

  lemma EmptyValid()
    ensures Valid(Empty)
  {
  }

  lemma TickKeepsValid(s: State, elapsed: nat)
    requires Valid(s)
    ensures Valid(Tick(s, elapsed))
  {
  }

  /** The conflict path is what keeps emails unique. */
  lemma SignupKeepsValid(cfg: Config, s: State, body: Option<SignupBody>, salt: string)
    requires Valid(s)
    ensures Valid(Signup(cfg, s, body, salt).0)
  {
  }

  lemma CreateMoodRecordKeepsValid(s: State, caller: Id, body: Option<MoodBody>)
    requires Valid(s)
    ensures Valid(CreateMoodRecord(s, caller, body).0)
  {
  }

  lemma DeleteMoodRecordKeepsValid(s: State, caller: Id, id: Id)
    requires Valid(s)
    ensures Valid(DeleteMoodRecord(s, caller, id).0)
  {
  }

  lemma UpdateUserKeepsValid(s: State, caller: Id, userId: Id, body: Option<UserUpdate>)
    requires Valid(s)
    ensures Valid(UpdateUser(s, caller, userId, body).0)
  {
  }

  /** The cascade is what keeps every record's owner in place. */
  lemma DeleteUserKeepsValid(s: State, caller: Id, userId: Id)
    requires Valid(s)
    ensures Valid(DeleteUser(s, caller, userId).0)
  {
  }

  lemma CreateSessionKeepsValid(s: State, caller: Id)
    requires Valid(s)
    ensures Valid(CreateSession(s, caller).0)
  {
  }

  /** Ending stamps the clock, which is never before the start. */
  lemma UpdateSessionKeepsValid(s: State, caller: Id, sessionId: Id, body: Option<SessionUpdate>)
    requires Valid(s)
    ensures Valid(UpdateSession(s, caller, sessionId, body).0)
  {
  }

  // ---- Accounts ----

  /** A successful signup can log in straight away with the same
      credentials, as the account just created. */
  lemma SignupThenLogin(cfg: Config, s: State, fullname: string, email: string, password: string, salt: string)
    requires Valid(s)
    requires Signup(cfg, s, Some(SignupBody(Some(fullname), Some(email), Some(password))), salt).1.Ok?
    ensures
      var (s', r) := Signup(cfg, s, Some(SignupBody(Some(fullname), Some(email), Some(password))), salt);
      var login := Login(cfg, s', Some(LoginBody(Some(email), Some(password))));
      login.Ok? && login.value.id == r.value && login.value.fullname == fullname && login.value.email == email
  {
    var body := Some(SignupBody(Some(fullname), Some(email), Some(password)));
    var (s', r) := Signup(cfg, s, body, salt);
    SignupKeepsValid(cfg, s, body, salt);
    var login := Login(cfg, s', Some(LoginBody(Some(email), Some(password))));
    assert r.value in s'.users && s'.users[r.value].email == email;
    assert login.Ok?;
    assert UserWithEmail(s'.users, email) == Some(r.value);
  }

  /** Signing up a second time with an email already registered never
      succeeds and changes nothing: it is a conflict, unless the first
      signup took the last id the sequence had. */
  lemma SignupTwiceConflicts(cfg: Config, s: State, first: SignupBody, second: SignupBody, salt1: string, salt2: string)
    requires Signup(cfg, s, Some(first), salt1).1.Ok?
    requires SignupComplete(Some(second)) && second.email == first.email
    ensures
      var s' := Signup(cfg, s, Some(first), salt1).0;
      Signup(cfg, s', Some(second), salt2) ==
        (s', Fail(if s'.nextUserId <= MaxInteger then Conflict else ServerError))
  {
    var (s', r) := Signup(cfg, s, Some(first), salt1);
    assert s'.users[r.value].email == second.email.value;
  }

  /** Login fails the same way for an unknown email and for a wrong password. */
  lemma LoginFailsUniformly(cfg: Config, s: State, email: string, password: string)
    requires email != [] && password != []
    requires Valid(s)
    ensures !EmailTaken(s.users, email) ==>
      Login(cfg, s, Some(LoginBody(Some(email), Some(password)))) == Fail(BadCredentials)
    ensures forall id ::
      (id in s.users && s.users[id].email == email && !CheckPassword(cfg, s.users[id].password, password))
      ==> Login(cfg, s, Some(LoginBody(Some(email), Some(password)))) == Fail(BadCredentials)
  {
  }

  /** The token a login hands out authenticates the same user, with or
      without the "Bearer " prefix, until 24 hours have passed, and not after. */
  lemma LoginTokenAuthenticates(cfg: Config, s: State, body: Option<LoginBody>, now: nat)
    requires Login(cfg, s, body).Ok?
    ensures
      var v := Login(cfg, s, body).value;
      && (now < s.clock + TokenLifetime ==>
            && Authenticate(cfg, Some(BearerPrefix + v.token), now) == Ok(v.id)
            && Authenticate(cfg, Some(v.token), now) == Ok(v.id))
      && (now >= s.clock + TokenLifetime ==>
            Authenticate(cfg, Some(BearerPrefix + v.token), now) == Fail(InvalidToken))
  {
    var v := Login(cfg, s, body).value;
    var c := Claims(Some(v.id), v.email, s.clock + TokenLifetime);
    assert Verify(cfg, v.token, s.clock) == Some(c);
    assert v.token == Issue(cfg, c);
    AuthenticateIssued(cfg, c, now);
  }

  /** The guard in front of a handler: a request without a token reaches no
      handler and changes nothing. */
  lemma MissingTokenReachesNoHandler<T>(cfg: Config, s: State, handler: Handler<T>)
    ensures Guarded(cfg, s, None, handler) == (s, Fail(MissingToken))
    ensures Guarded(cfg, s, Some(""), handler) == (s, Fail(MissingToken))
  {
  }

  /** Through the guard, a deletion with a valid token of one user never
      removes a record of another user. */
  lemma TokenForOneUserCannotDeleteAnothers(cfg: Config, s: State, c: Claims, id: Id)
    requires c.userId.Some? && s.clock < c.exp
    requires id in s.moods && s.moods[id].owner != c.userId.value
    ensures Guarded(cfg, s, Some(BearerPrefix + Issue(cfg, c)), (st, caller) => DeleteMoodRecord(st, caller, id))
         == (s, Fail(if Bindable(id) then Forbidden else ServerError))
  {
    AuthenticateIssued(cfg, c, s.clock);
  }

  /** Deleting an account leaves no record or session of it behind: every
      former id of it answers "not found" (records) or "forbidden"
      (sessions), and the account itself is gone. */
  lemma DeleteUserCascades(s: State, u: Id, anyone: Id)
    requires Valid(s)
    ensures
      var s' := DeleteUser(s, u, u).0;
      && OwnedMoods(s', u) == map[]
      && OwnedSessions(s', u) == map[]
      && GetUser(s', u, u) == Fail(NotFound)
      && (forall id :: id in s.moods && s.moods[id].owner == u ==> GetMoodRecord(s', anyone, id) == Fail(NotFound))
      && (forall id :: id in s.sessions && s.sessions[id].owner == u ==>
            UpdateSession(s', anyone, id, Some(SessionUpdate(None, true))).1 == Fail(Forbidden))
  {
    var s' := DeleteUser(s, u, u).0;
    assert OwnedMoods(s', u) == map[];
    assert OwnedSessions(s', u) == map[];
  }

  // ---- Mood records ----

  /** A created record reads back as created for its owner, and is forbidden
      to everyone else. */
  lemma CreateThenGetMoodRecord(s: State, caller: Id, other: Id, body: Option<MoodBody>)
    requires CreateMoodRecord(s, caller, body).1.Ok?
    requires other != caller
    ensures
      var (s', r) := CreateMoodRecord(s, caller, body);
      && GetMoodRecord(s', caller, r.value) ==
           Ok(MoodView(r.value, body.value.emotion.value, body.value.confidence.value, s.clock))
      && GetMoodRecord(s', other, r.value) == Fail(Forbidden)
  {
  }

  /** A deleted record reads as not found, and the next record created does
      not reuse its id. Requests.IdsNeverReissued extends this to every
      later request. */
  lemma DeletedMoodIdNeverReused(s: State, caller: Id, id: Id, creator: Id, body: Option<MoodBody>)
    requires Valid(s)
    requires DeleteMoodRecord(s, caller, id).1.Ok?
    ensures
      var s1 := DeleteMoodRecord(s, caller, id).0;
      var (s2, r) := CreateMoodRecord(s1, creator, body);
      && GetMoodRecord(s1, caller, id) == Fail(NotFound)
      && (r.Ok? ==> r.value != id)
  {
  }

  /** The worked example: happy 0.8, happy 0.6, sad 0.5 give happy twice at
      0.7 on average, then sad once at 0.5. */
  lemma StatsExample(u: Id)
    ensures EmotionStats([
      MoodRecord(u, "happy", 0.8, 1), MoodRecord(u, "happy", 0.6, 2), MoodRecord(u, "sad", 0.5, 3)])
      == [EmotionStat("happy", 2, 0.7), EmotionStat("sad", 1, 0.5)]
  {
    var recs := [MoodRecord(u, "happy", 0.8, 1), MoodRecord(u, "happy", 0.6, 2), MoodRecord(u, "sad", 0.5, 3)];
    assert recs[..2] == [recs[0], recs[1]];
    assert recs[..2][..1] == [recs[0]];
    assert [recs[0]][..0] == [];
    var g1 := GroupAll([recs[0]]);
    assert GroupAll([]) == [];
    assert g1 == Add([], recs[0]) == [Group("happy", 1, 0.8)];
    var g2 := GroupAll(recs[..2]);
    assert g2 == Add(g1, recs[1]) == [Group("happy", 2, 1.4)];
    assert g2[1..] == [];
    var g := GroupAll(recs);
    assert g == Add(g2, recs[2]) == [Group("happy", 2, 1.4), Group("sad", 1, 0.5)];
    assert SortByCount(g[1..]) == [Group("sad", 1, 0.5)];
    assert SortByCount(g) == g;
  }

  // ---- Sessions ----

  /** Create a session, let time pass, end it: the end time is set, to the
      current time, and is not before the start. */
  lemma SessionEndRoundTrip(s: State, caller: Id, elapsed: nat)
    requires CreateSession(s, caller).1.Ok?
    ensures
      var (s1, r) := CreateSession(s, caller);
      var s2 := Tick(s1, elapsed);
      var s3 := UpdateSession(s2, caller, r.value, Some(SessionUpdate(None, true))).0;
      && r.value in s3.sessions
      && s3.sessions[r.value].endTime == Some(s2.clock)
      && s3.sessions[r.value].startTime <= s3.sessions[r.value].endTime.value
  {
  }

  /** The counter keeps the last value written; it does not accumulate. */
  lemma EmotionCounterLastWriteWins(s: State, caller: Id, id: Id, n1: int, n2: int)
    requires id in s.sessions && s.sessions[id].owner == caller
    requires Bindable(id) && Bindable(n1) && Bindable(n2)
    ensures
      var s1 := UpdateSession(s, caller, id, Some(SessionUpdate(Some(n1), false))).0;
      var s2 := UpdateSession(s1, caller, id, Some(SessionUpdate(Some(n2), false))).0;
      s2.sessions[id].emotionsDetected == n2
  {
  }

  /** Ending an ended session again moves its end time to the current time. */
  lemma EndingAgainRestamps(s: State, caller: Id, id: Id, elapsed: nat)
    requires id in s.sessions && s.sessions[id].owner == caller && Bindable(id)
    ensures
      var s1 := UpdateSession(s, caller, id, Some(SessionUpdate(None, true))).0;
      var s2 := Tick(s1, elapsed);
      var s3 := UpdateSession(s2, caller, id, Some(SessionUpdate(None, true))).0;
      s3.sessions[id].endTime == Some(s.clock + elapsed)
  {
  }

  /** An update that names neither field leaves the session as it was. */
  lemma EmptySessionUpdateChangesNothing(s: State, caller: Id, id: Id)
    requires id in s.sessions && s.sessions[id].owner == caller && Bindable(id)
    ensures UpdateSession(s, caller, id, Some(SessionUpdate(None, false))) == (s, Ok(()))
  {
    assert s.sessions[id := s.sessions[id]] == s.sessions;
  }
}
