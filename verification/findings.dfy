/** The record and session inserts exactly as the handlers issue them. The
    schema declares `FOREIGN KEY (user_id) REFERENCES users (id)`, but the
    connection never turns SQLite's foreign-key enforcement on, and the guard
    does not check that the token's user still exists. A token stays valid
    for 24 hours after its account is deleted, so it can still create rows
    owned by nobody. The rest of the model uses the inserts with the foreign
    key enforced (Mood.CreateMoodRecord, App.CreateSession). */
module Findings {

  import opened Outcomes
  import opened Tokens
  import opened Schema
  import opened Auth
  import opened Mood
  import opened App
  import opened Properties

  /** POST /mood-records with the foreign key unenforced: any caller id is
      stored as the owner. Only an exhausted id sequence fails the insert. */
  function CreateMoodRecordAsWritten(s: State, caller: Id, body: Option<MoodBody>): (r: (State, Response<Id>))
    ensures r.1.Fail? ==> r.0 == s
    ensures r.1 == Fail(Validation) <==> !MoodComplete(body)
    ensures r.1 == Fail(ServerError) <==> MoodComplete(body) && s.nextMoodId > MaxInteger
    ensures r.1.Ok? || r.1 == Fail(Validation) || r.1 == Fail(ServerError)
    ensures r.1.Ok? ==>
      && r.1.value == s.nextMoodId && r.0.nextMoodId > r.1.value
      && r.0.moods.Keys == s.moods.Keys + {r.1.value}
      && (forall other :: other in s.moods && other != r.1.value ==> r.0.moods[other] == s.moods[other])
      && r.0.moods[r.1.value] == MoodRecord(caller, body.value.emotion.value, body.value.confidence.value, s.clock)
      && r.0.users == s.users && r.0.sessions == s.sessions && r.0.clock == s.clock
      && r.0.nextUserId == s.nextUserId && r.0.nextSessionId == s.nextSessionId
  {
    if !MoodComplete(body) then (s, Fail(Validation))
    else if s.nextMoodId > MaxInteger then (s, Fail(ServerError))
    else
      var id := s.nextMoodId;
      var rec := MoodRecord(caller, body.value.emotion.value, body.value.confidence.value, s.clock);
      (s.(moods := s.moods[id := rec], nextMoodId := id + 1), Ok(id))
  }

  /** POST /sessions with the foreign key unenforced. Only an exhausted id
      sequence fails the insert. */
  function CreateSessionAsWritten(s: State, caller: Id): (r: (State, Response<Id>))
    ensures r.1.Fail? ==> r.0 == s
    ensures r.1 == Fail(ServerError) <==> s.nextSessionId > MaxInteger
    ensures r.1.Ok? || r.1 == Fail(ServerError)
    ensures r.1.Ok? ==> r.1.value == s.nextSessionId && r.0.nextSessionId > r.1.value
    ensures r.1.Ok? ==> r.0.sessions.Keys == s.sessions.Keys + {r.1.value}
    ensures r.1.Ok? ==> forall other :: other in s.sessions && other != r.1.value ==> r.0.sessions[other] == s.sessions[other]
    ensures r.1.Ok? ==> r.0.sessions[r.1.value] == Session(caller, None, 0, s.clock, None)
    ensures r.1.Ok? ==> r.0.users == s.users && r.0.moods == s.moods && r.0.clock == s.clock
    ensures r.1.Ok? ==> r.0.nextUserId == s.nextUserId && r.0.nextMoodId == s.nextMoodId
  {
    if s.nextSessionId > MaxInteger then (s, Fail(ServerError))
    else
      var id := s.nextSessionId;
      (s.(sessions := s.sessions[id := Session(caller, None, 0, s.clock, None)], nextSessionId := id + 1), Ok(id))
  }

  /** For a caller whose account exists the inserts as written are exactly
      the inserts with the foreign key enforced: the two differ only on a
      caller id without an account. */
  lemma AsWrittenAgreesForExistingCaller(s: State, caller: Id, body: Option<MoodBody>)
    requires caller in s.users
    ensures CreateMoodRecordAsWritten(s, caller, body) == CreateMoodRecord(s, caller, body)
    ensures CreateSessionAsWritten(s, caller) == CreateSession(s, caller)
  {
  }

  const Alice := SignupBody(Some("Alice"), Some("alice@example.com"), Some("secret"))
  const AliceLogin := LoginBody(Some("alice@example.com"), Some("secret"))
  const Happy := MoodBody(Some("happy"), Some(0.9))

  /** Whatever the state, a caller id with no account behind it gets a
      mood record and a session stored under it as written, and an error
      with nothing changed once the foreign key is enforced. */
  lemma StaleCallerOrphans(s: State, caller: Id, body: MoodBody)
    requires caller !in s.users
    requires s.nextMoodId <= MaxInteger && s.nextSessionId <= MaxInteger
    requires MoodComplete(Some(body))
    ensures
      var written := CreateMoodRecordAsWritten(s, caller, Some(body));
      written.1.Ok? && !OwnersExist(written.0)
    ensures
      var written := CreateSessionAsWritten(s, caller);
      written.1.Ok? && !OwnersExist(written.0)
    ensures CreateMoodRecord(s, caller, Some(body)) == (s, Fail(ServerError))
    ensures CreateSession(s, caller) == (s, Fail(ServerError))
  {
    var written := CreateMoodRecordAsWritten(s, caller, Some(body));
    assert written.0.moods[written.1.value].owner !in written.0.users;
    var writtenSession := CreateSessionAsWritten(s, caller);
    assert writtenSession.0.sessions[writtenSession.1.value].owner !in writtenSession.0.users;
  }

  /** Alice signs up and logs in, then deletes her account with her token.
      The store is consistent and she is gone, yet the same token still
      authenticates her id. */
  lemma TokenOutlivesAccount(cfg: Config, salt: string)
    ensures
      var (s1, id) := Signup(cfg, Empty, Some(Alice), salt);
      var login := Login(cfg, s1, Some(AliceLogin));
      var s2 := DeleteUser(s1, 1, 1).0;
      && id == Ok(1) && login.Ok? && login.value.id == 1
      && Valid(s2) && 1 !in s2.users && s2.clock == s1.clock
      && Authenticate(cfg, Some(BearerPrefix + login.value.token), s2.clock) == Ok(1)
  {
    EmptyValid();
    var (s1, id) := Signup(cfg, Empty, Some(Alice), salt);
    assert id == Ok(1);
    SignupKeepsValid(cfg, Empty, Some(Alice), salt);
    SignupThenLogin(cfg, Empty, "Alice", "alice@example.com", "secret", salt);
    LoginTokenAuthenticates(cfg, s1, Some(AliceLogin), s1.clock);
    DeleteUserKeepsValid(s1, 1, 1);
  }

  /** The whole scenario through the guard: after the deletion, the old token
      still reaches both create handlers. As written they store a record and
      a session owned by nobody; with the foreign key enforced both fail and
      leave the store as it was. */
  lemma DeletedAccountTokenLeavesOrphans(cfg: Config, salt: string)
    ensures
      var s1 := Signup(cfg, Empty, Some(Alice), salt).0;
      var header := Some(BearerPrefix + Login(cfg, s1, Some(AliceLogin)).value.token);
      var s2 := Guarded(cfg, s1, header, (st, caller) => DeleteUser(st, caller, 1)).0;
      var written := Guarded(cfg, s2, header, (st, caller) => CreateMoodRecordAsWritten(st, caller, Some(Happy)));
      var enforced := Guarded(cfg, s2, header, (st, caller) => CreateMoodRecord(st, caller, Some(Happy)));
      && Valid(s2)
      && written.1.Ok? && !OwnersExist(written.0)
      && enforced == (s2, Fail(ServerError))
  {
    TokenOutlivesAccount(cfg, salt);
    var s1 := Signup(cfg, Empty, Some(Alice), salt).0;
    var header := Some(BearerPrefix + Login(cfg, s1, Some(AliceLogin)).value.token);
    var s2 := DeleteUser(s1, 1, 1).0;
    assert Guarded(cfg, s1, header, (st, caller) => DeleteUser(st, caller, 1)).0 == s2;
    StaleCallerOrphans(s2, 1, Happy);
  }
}
