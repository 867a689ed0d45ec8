/** The three relations of the database (users, mood_records, sessions) as
    maps keyed by id, together with the AUTOINCREMENT counters and the clock
    that stands for CURRENT_TIMESTAMP. */
module Schema {

  import opened Outcomes
  import opened Tokens

  /** AUTOINCREMENT ids start at 1. */
  type Id = nat

  /** The range of an SQLite INTEGER, a signed 64-bit value. Binding a
      Python int outside it raises OverflowError, and an AUTOINCREMENT
      sequence that has reached the maximum makes the next insert fail with
      SQLITE_FULL. */
  const MinInteger: int := -0x8000_0000_0000_0000
  const MaxInteger: int := 0x7FFF_FFFF_FFFF_FFFF

  predicate Bindable(n: int) {
    MinInteger <= n <= MaxInteger
  }

  datatype User = User(fullname: string, email: string, password: PwHash, createdAt: nat)

  /** A row of mood_records; `owner` is its user_id column. */
  datatype MoodRecord = MoodRecord(owner: Id, emotion: string, confidence: real, timestamp: nat)

  /** A row of sessions. `duration` is a nullable column no handler writes. */
  datatype Session = Session(
    owner: Id,
    duration: Option<int>,
    emotionsDetected: int,
    startTime: nat,
    endTime: Option<nat>)

  /** The database. `next*` are the AUTOINCREMENT sequences (the next id to
      hand out); `clock` is the current time in seconds. */
  datatype State = State(
    users: map<Id, User>,
    moods: map<Id, MoodRecord>,
    sessions: map<Id, Session>,
    nextUserId: Id,
    nextMoodId: Id,
    nextSessionId: Id,
    clock: nat)

  /** The freshly created, empty database. */
  const Empty: State := State(map[], map[], map[], 1, 1, 1, 0)

  /** Time passes between requests; it never runs backwards. */
  function Tick(s: State, elapsed: nat): (s': State)
    ensures s'.clock >= s.clock
    ensures s'.users == s.users && s'.moods == s.moods && s'.sessions == s.sessions
  {
    s.(clock := s.clock + elapsed)
  }

  // ---- The schema's constraints, as a state invariant ----

  /** The UNIQUE constraint on users.email. */
  ghost predicate EmailsUnique(users: map<Id, User>) {
    forall a, b :: a in users && b in users && users[a].email == users[b].email ==> a == b
  }

  /** Every id in use was handed out by its AUTOINCREMENT sequence, and no
      sequence goes past the largest INTEGER. */
  ghost predicate IdsIssued(s: State) {
    && 1 <= s.nextUserId <= MaxInteger + 1
    && 1 <= s.nextMoodId <= MaxInteger + 1
    && 1 <= s.nextSessionId <= MaxInteger + 1
    && (forall id :: id in s.users ==> 1 <= id < s.nextUserId)
    && (forall id :: id in s.moods ==> 1 <= id < s.nextMoodId)
    && (forall id :: id in s.sessions ==> 1 <= id < s.nextSessionId)
  }

  /** The FOREIGN KEY clauses: every record and session names an existing user. */
  ghost predicate OwnersExist(s: State) {
    && (forall id :: id in s.moods ==> s.moods[id].owner in s.users)
    && (forall id :: id in s.sessions ==> s.sessions[id].owner in s.users)
  }

  /** Every stored timestamp was read from the clock, so none is in the future. */
  ghost predicate NotInFuture(s: State) {
    && (forall id :: id in s.users ==> s.users[id].createdAt <= s.clock)
    && (forall id :: id in s.moods ==> s.moods[id].timestamp <= s.clock)
    && (forall id :: id in s.sessions ==> s.sessions[id].startTime <= s.clock)
    && (forall id :: id in s.sessions && s.sessions[id].endTime.Some? ==>
          s.sessions[id].endTime.value <= s.clock)
  }

  /** A session never ends before it starts. */
  ghost predicate SessionsOrdered(s: State) {
    forall id :: id in s.sessions && s.sessions[id].endTime.Some? ==>
      s.sessions[id].startTime <= s.sessions[id].endTime.value
  }

  ghost predicate Valid(s: State) {
    && EmailsUnique(s.users)
    && IdsIssued(s)
    && OwnersExist(s)
    && NotInFuture(s)
    && SessionsOrdered(s)
  }

  // ---- Ownership-scoped views of the tables ----

  function OwnedMoods(s: State, owner: Id): (m: map<Id, MoodRecord>)
    ensures forall id :: id in m <==> id in s.moods && s.moods[id].owner == owner
    ensures forall id :: id in m ==> m[id] == s.moods[id]
  {
    map id | id in s.moods && s.moods[id].owner == owner :: s.moods[id]
  }

  function OwnedSessions(s: State, owner: Id): (m: map<Id, Session>)
    ensures forall id :: id in m <==> id in s.sessions && s.sessions[id].owner == owner
    ensures forall id :: id in m ==> m[id] == s.sessions[id]
  {
    map id | id in s.sessions && s.sessions[id].owner == owner :: s.sessions[id]
  }
}
