/** The service over time: any sequence of the requests that change the
    database, each arriving with the caller the guard established, with time
    passing in between. */
module Requests {

  import opened Outcomes
  import opened Tokens
  import opened Schema
  import opened Auth
  import opened Mood
  import opened App
  import opened Properties

  /** One state-changing request. The read-only endpoints are left out: they
      return the state they are given. */
  datatype Request =
    | SignupRequest(body: Option<SignupBody>, salt: string)
    | CreateMoodRequest(caller: Id, mood: Option<MoodBody>)
    | DeleteMoodRequest(caller: Id, moodId: Id)
    | UpdateUserRequest(caller: Id, userId: Id, update: Option<UserUpdate>)
    | DeleteUserRequest(caller: Id, userId: Id)
    | CreateSessionRequest(caller: Id)
    | UpdateSessionRequest(caller: Id, sessionId: Id, change: Option<SessionUpdate>)
    | Wait(elapsed: nat)

  function Apply(cfg: Config, s: State, req: Request): State {
    match req
    case SignupRequest(body, salt) => Signup(cfg, s, body, salt).0
    case CreateMoodRequest(caller, mood) => CreateMoodRecord(s, caller, mood).0
    case DeleteMoodRequest(caller, moodId) => DeleteMoodRecord(s, caller, moodId).0
    case UpdateUserRequest(caller, userId, update) => UpdateUser(s, caller, userId, update).0
    case DeleteUserRequest(caller, userId) => DeleteUser(s, caller, userId).0
    case CreateSessionRequest(caller) => CreateSession(s, caller).0
    case UpdateSessionRequest(caller, sessionId, change) => UpdateSession(s, caller, sessionId, change).0
    case Wait(elapsed) => Tick(s, elapsed)
  }

  /** The requests handled one after the other. */
  function Run(cfg: Config, s: State, reqs: seq<Request>): State
    decreases |reqs|
  {
    if |reqs| == 0 then s else Run(cfg, Apply(cfg, s, reqs[0]), reqs[1..])
  }

  /** No AUTOINCREMENT sequence goes backwards. */
  ghost predicate CountersGrow(s: State, s': State) {
    && s.nextUserId <= s'.nextUserId
    && s.nextMoodId <= s'.nextMoodId
    && s.nextSessionId <= s'.nextSessionId
  }

  lemma ApplyKeepsValid(cfg: Config, s: State, req: Request)
    requires Valid(s)
    ensures Valid(Apply(cfg, s, req))
    ensures CountersGrow(s, Apply(cfg, s, req))
  {
    match req
    case SignupRequest(body, salt) => SignupKeepsValid(cfg, s, body, salt);
    case CreateMoodRequest(caller, mood) => CreateMoodRecordKeepsValid(s, caller, mood);
    case DeleteMoodRequest(caller, moodId) => DeleteMoodRecordKeepsValid(s, caller, moodId);
    case UpdateUserRequest(caller, userId, update) => UpdateUserKeepsValid(s, caller, userId, update);
    case DeleteUserRequest(caller, userId) => DeleteUserKeepsValid(s, caller, userId);
    case CreateSessionRequest(caller) => CreateSessionKeepsValid(s, caller);
    case UpdateSessionRequest(caller, sessionId, change) => UpdateSessionKeepsValid(s, caller, sessionId, change);
    case Wait(elapsed) => TickKeepsValid(s, elapsed);
  }

  /** Whatever the requests, the schema's constraints hold throughout and
      no id sequence goes backwards. */
  lemma {:induction false} RunKeepsValid(cfg: Config, s: State, reqs: seq<Request>)
    requires Valid(s)
    ensures Valid(Run(cfg, s, reqs))
    ensures CountersGrow(s, Run(cfg, s, reqs))
    decreases |reqs|
  {
    if |reqs| > 0 {
      ApplyKeepsValid(cfg, s, reqs[0]);
      RunKeepsValid(cfg, Apply(cfg, s, reqs[0]), reqs[1..]);
    }
  }

  /** An id handed out once is never handed out again, however many requests
      come in between and whether or not its row has since been deleted. In
      particular the token of a deleted account never comes to name a new
      one. */
  lemma IdsNeverReissued(
    cfg: Config, s: State, reqs: seq<Request>,
    u: Id, body: Option<SignupBody>, salt: string,
    m: Id, creator: Id, mood: Option<MoodBody>,
    x: Id)
    requires Valid(s)
    ensures u in s.users ==>
      var r := Signup(cfg, Run(cfg, s, reqs), body, salt).1;
      r.Ok? ==> r.value != u
    ensures m in s.moods ==>
      var r := CreateMoodRecord(Run(cfg, s, reqs), creator, mood).1;
      r.Ok? ==> r.value != m
    ensures x in s.sessions ==>
      var r := CreateSession(Run(cfg, s, reqs), creator).1;
      r.Ok? ==> r.value != x
  {
    RunKeepsValid(cfg, s, reqs);
  }
}
