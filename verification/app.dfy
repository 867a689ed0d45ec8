/** The account and session handlers. The /users/<id> routes act only on the
    caller's own account; the session routes on the caller's own sessions. */
module App {

  import opened Outcomes
  import opened Schema
  import opened Collections
  import opened Auth

  // ---- /users/<id> ----

  /** A user's profile as returned to them: never the password hash. */
  datatype UserView = UserView(id: Id, fullname: string, email: string, createdAt: nat)

  /** GET /users/<id>. */
  function GetUser(s: State, caller: Id, userId: Id): (r: Response<UserView>)
    ensures r == Fail(Forbidden) <==> caller != userId
    ensures r == Fail(NotFound) <==> caller == userId && userId !in s.users
    ensures r.Ok? || r == Fail(Forbidden) || r == Fail(NotFound)
    ensures r.Ok? ==>
      && userId in s.users
      && r.value.id == userId
      && r.value.fullname == s.users[userId].fullname
      && r.value.email == s.users[userId].email
      && r.value.createdAt == s.users[userId].createdAt
  {
    if caller != userId then Fail(Forbidden)
    else if userId !in s.users then Fail(NotFound)
    else
      var u := s.users[userId];
      Ok(UserView(userId, u.fullname, u.email, u.createdAt))
  }

  datatype UserUpdate = UserUpdate(fullname: Option<string>)

  /** PUT /users/<id>. Only the full name can change, and only to a non-empty
      value; a JSON null body makes the handler raise. Updating an account
      that does not exist changes nothing and still succeeds. */
  function UpdateUser(s: State, caller: Id, userId: Id, body: Option<UserUpdate>): (r: (State, Response<()>))
    ensures r.1.Fail? ==> r.0 == s
    ensures r.1 == Fail(Forbidden) <==> caller != userId
    ensures r.1 == Fail(ServerError) <==> caller == userId && body.None?
    ensures r.1.Ok? || r.1 == Fail(Forbidden) || r.1 == Fail(ServerError)
    ensures r.1.Ok? ==>
      && r.0.users.Keys == s.users.Keys
      && (forall id :: id in s.users && id != userId ==> r.0.users[id] == s.users[id])
      && (userId in s.users ==>
            && r.0.users[userId].email == s.users[userId].email
            && r.0.users[userId].password == s.users[userId].password
            && r.0.users[userId].createdAt == s.users[userId].createdAt
            && r.0.users[userId].fullname ==
                 (if Given(body.value.fullname) then body.value.fullname.value else s.users[userId].fullname))
      && r.0.moods == s.moods && r.0.sessions == s.sessions && r.0.clock == s.clock
      && r.0.nextUserId == s.nextUserId && r.0.nextMoodId == s.nextMoodId
      && r.0.nextSessionId == s.nextSessionId
  {
    if caller != userId then (s, Fail(Forbidden))
    else if body.None? then (s, Fail(ServerError))
    else if Given(body.value.fullname) && userId in s.users then
      var u := s.users[userId];
      (s.(users := s.users[userId := u.(fullname := body.value.fullname.value)]), Ok(()))
    else (s, Ok(()))
  }

  /** DELETE /users/<id>: the caller's mood records, sessions and account go
      together, in one transaction. */
  function DeleteUser(s: State, caller: Id, userId: Id): (r: (State, Response<()>))
    ensures r.1.Fail? ==> r.0 == s
    ensures r.1 == Fail(Forbidden) <==> caller != userId
    ensures r.1.Ok? <==> caller == userId
    ensures r.1.Ok? ==>
      && r.0.users.Keys == s.users.Keys - {userId}
      && (forall id :: id in r.0.users ==> r.0.users[id] == s.users[id])
      && (forall id :: id in r.0.moods <==> id in s.moods && s.moods[id].owner != userId)
      && (forall id :: id in r.0.moods ==> r.0.moods[id] == s.moods[id])
      && (forall id :: id in r.0.sessions <==> id in s.sessions && s.sessions[id].owner != userId)
      && (forall id :: id in r.0.sessions ==> r.0.sessions[id] == s.sessions[id])
      && r.0.clock == s.clock && r.0.nextUserId == s.nextUserId
      && r.0.nextMoodId == s.nextMoodId && r.0.nextSessionId == s.nextSessionId
  {
    if caller != userId then (s, Fail(Forbidden))
    else
      var moods := map id | id in s.moods && s.moods[id].owner != userId :: s.moods[id];
      var sessions := map id | id in s.sessions && s.sessions[id].owner != userId :: s.sessions[id];
      (s.(users := s.users - {userId}, moods := moods, sessions := sessions), Ok(()))
  }

  // ---- /sessions ----

  /** POST /sessions: a new session of the caller's, started now, not yet
      ended, with no emotions counted. The insert fails (500) when the id
      sequence is exhausted, or when it names a user that no longer exists,
      since that violates the foreign key. */
  function CreateSession(s: State, caller: Id): (r: (State, Response<Id>))
    ensures r.1.Fail? ==> r.0 == s
    ensures r.1 == Fail(ServerError) <==> s.nextSessionId > MaxInteger || caller !in s.users
    ensures r.1.Ok? || r.1 == Fail(ServerError)
    ensures r.1.Ok? ==>
      var id := r.1.value;
      && id == s.nextSessionId && r.0.nextSessionId > id && Bindable(id)
      && (IdsIssued(s) ==> id !in s.sessions)
      && r.0.sessions.Keys == s.sessions.Keys + {id}
      && (forall other :: other in s.sessions && other != id ==> r.0.sessions[other] == s.sessions[other])
      && r.0.sessions[id] == Session(caller, None, 0, s.clock, None)
      && r.0.users == s.users && r.0.moods == s.moods && r.0.clock == s.clock
      && r.0.nextUserId == s.nextUserId && r.0.nextMoodId == s.nextMoodId
  {
    if s.nextSessionId > MaxInteger || caller !in s.users then (s, Fail(ServerError))
    else
      var id := s.nextSessionId;
      (s.(sessions := s.sessions[id := Session(caller, None, 0, s.clock, None)], nextSessionId := id + 1), Ok(id))
  }

  /** `emotionsDetected` absent means JSON null or missing; `endSession` is
      the truthiness of the `end_session` field. */
  datatype SessionUpdate = SessionUpdate(emotionsDetected: Option<int>, endSession: bool)

  /** PUT /sessions/<id>. A missing session and someone else's session are
      both forbidden. The counter is overwritten, not added to; ending stamps
      the current time, again on every call. The handler raises (500) on a
      session id beyond the INTEGER range, before the ownership check, and
      after it on a JSON null body or a counter beyond that range; nothing
      is committed then. */
  function UpdateSession(s: State, caller: Id, sessionId: Id, body: Option<SessionUpdate>): (r: (State, Response<()>))
    ensures r.1.Fail? ==> r.0 == s
    ensures r.1 == Fail(Forbidden) <==>
      Bindable(sessionId) && (sessionId !in s.sessions || s.sessions[sessionId].owner != caller)
    ensures r.1 == Fail(ServerError) <==>
      || !Bindable(sessionId)
      || (&& sessionId in s.sessions && s.sessions[sessionId].owner == caller
          && (body.None? || (body.value.emotionsDetected.Some? && !Bindable(body.value.emotionsDetected.value))))
    ensures r.1.Ok? || r.1 == Fail(Forbidden) || r.1 == Fail(ServerError)
    ensures r.1.Ok? ==> sessionId in s.sessions && r.0.sessions.Keys == s.sessions.Keys
    ensures r.1.Ok? ==>
      var before := s.sessions[sessionId];
      var after := r.0.sessions[sessionId];
      && (forall id :: id in s.sessions && id != sessionId ==> r.0.sessions[id] == s.sessions[id])
      && after.owner == before.owner && after.duration == before.duration
      && after.startTime == before.startTime
      && after.emotionsDetected ==
           (if body.value.emotionsDetected.Some? then body.value.emotionsDetected.value else before.emotionsDetected)
      && after.endTime == (if body.value.endSession then Some(s.clock) else before.endTime)
      && r.0.users == s.users && r.0.moods == s.moods && r.0.clock == s.clock
      && r.0.nextUserId == s.nextUserId && r.0.nextMoodId == s.nextMoodId
      && r.0.nextSessionId == s.nextSessionId
  {
    if !Bindable(sessionId) then (s, Fail(ServerError))
    else if sessionId !in s.sessions || s.sessions[sessionId].owner != caller then (s, Fail(Forbidden))
    else if body.None? then (s, Fail(ServerError))
    else if body.value.emotionsDetected.Some? && !Bindable(body.value.emotionsDetected.value) then
      (s, Fail(ServerError))
    else
      var before := s.sessions[sessionId];
      var counted := match body.value.emotionsDetected
        case Some(n) => before.(emotionsDetected := n)
        case None => before;
      var ended := if body.value.endSession then counted.(endTime := Some(s.clock)) else counted;
      (s.(sessions := s.sessions[sessionId := ended]), Ok(()))
  }

  /** A session as listed to its owner. */
  datatype SessionView = SessionView(
    id: Id,
    duration: Option<int>,
    emotionsDetected: int,
    startTime: nat,
    endTime: Option<nat>)

  function SessionViewOf(id: Id, x: Session): SessionView {
    SessionView(id, x.duration, x.emotionsDetected, x.startTime, x.endTime)
  }

  /** GET /sessions: every session of the caller's, latest start first. */
  method GetSessions(s: State, caller: Id) returns (r: seq<SessionView>)
    ensures forall i :: 0 <= i < |r| ==>
      r[i].id in s.sessions && s.sessions[r[i].id].owner == caller &&
      r[i] == SessionViewOf(r[i].id, s.sessions[r[i].id])
    ensures forall i, j :: 0 <= i < j < |r| ==> r[i].id != r[j].id
    ensures forall id :: id in s.sessions && s.sessions[id].owner == caller ==>
      exists i :: 0 <= i < |r| && r[i].id == id
    ensures forall i, j :: 0 <= i < j < |r| ==> r[j].startTime <= r[i].startTime
  {
    var owned := OwnedSessions(s, caller);
    var ids := TopByKey(owned, (x: Session) => x.startTime, None);
    r := seq(|ids|, i requires 0 <= i < |ids| => SessionViewOf(ids[i], owned[ids[i]]));
    forall id | id in owned ensures exists i :: 0 <= i < |r| && r[i].id == id {
      var i :| 0 <= i < |ids| && ids[i] == id;
      assert r[i].id == id;
    }
  }
}
