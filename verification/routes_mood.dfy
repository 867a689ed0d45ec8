/** The mood-record handlers: create, list, fetch, delete, and the per-emotion
    statistics. Each takes the caller's id as established by the guard. */
module Mood {

  import opened Outcomes
  import opened Schema
  import opened Collections
  import opened Stats
  import opened Auth

  datatype MoodBody = MoodBody(emotion: Option<string>, confidence: Option<real>)

  /** A mood record as returned to its owner. */
  datatype MoodView = MoodView(id: Id, emotion: string, confidence: real, timestamp: nat)

  function ViewOf(id: Id, m: MoodRecord): MoodView {
    MoodView(id, m.emotion, m.confidence, m.timestamp)
  }

  predicate MoodComplete(body: Option<MoodBody>) {
    body.Some? && Given(body.value.emotion) && body.value.confidence.Some?
  }

  /** POST /mood-records. The new record is owned by the caller and stamped
      with the current time. The insert fails (500) when the id sequence is
      exhausted, or when it names a user that no longer exists, since that
      violates the foreign key. */
  function CreateMoodRecord(s: State, caller: Id, body: Option<MoodBody>): (r: (State, Response<Id>))
    ensures r.1.Fail? ==> r.0 == s
    ensures r.1 == Fail(Validation) <==> !MoodComplete(body)
    ensures r.1 == Fail(ServerError) <==>
      MoodComplete(body) && (s.nextMoodId > MaxInteger || caller !in s.users)
    ensures r.1.Ok? || r.1 == Fail(Validation) || r.1 == Fail(ServerError)
    ensures r.1.Ok? ==>
      var id := r.1.value;
      && id == s.nextMoodId && r.0.nextMoodId > id && Bindable(id)
      && (IdsIssued(s) ==> id !in s.moods)
      && r.0.moods.Keys == s.moods.Keys + {id}
      && (forall other :: other in s.moods && other != id ==> r.0.moods[other] == s.moods[other])
      && r.0.moods[id] == MoodRecord(caller, body.value.emotion.value, body.value.confidence.value, s.clock)
      && r.0.users == s.users && r.0.sessions == s.sessions && r.0.clock == s.clock
      && r.0.nextUserId == s.nextUserId && r.0.nextSessionId == s.nextSessionId
  {
    if !MoodComplete(body) then (s, Fail(Validation))
    else if s.nextMoodId > MaxInteger || caller !in s.users then (s, Fail(ServerError))
    else
      var id := s.nextMoodId;
      var rec := MoodRecord(caller, body.value.emotion.value, body.value.confidence.value, s.clock);
      (s.(moods := s.moods[id := rec], nextMoodId := id + 1), Ok(id))
  }

  /** Rows returned when the request names no usable limit. */
  const DefaultLimit: nat := 100

  /** SQLite's LIMIT for a bindable `limit` parameter: an absent one is
      replaced by 100, a negative one means no limit at all. */
  function EffectiveLimit(limit: Option<int>): Option<nat> {
    match limit
    case None => Some(DefaultLimit)
    case Some(n) => if n < 0 then None else Some(n)
  }

  /** GET /mood-records: the caller's records, newest first. `limit` is the
      parameter as `request.args.get('limit', 100, type=int)` reads it: absent
      when missing or not an integer. At most 100 records without one, at
      most `limit` with a non-negative one, all of them with a negative one;
      records left out are no newer than any returned. A limit outside the
      INTEGER range makes the query raise (500). */
  method GetMoodRecords(s: State, caller: Id, limit: Option<int>) returns (r: Response<seq<MoodView>>)
    ensures r.Fail? <==> limit.Some? && !Bindable(limit.value)
    ensures r.Fail? ==> r.error == ServerError
    ensures r.Ok? ==> forall i :: 0 <= i < |r.value| ==>
      var v := r.value[i];
      v.id in s.moods && s.moods[v.id].owner == caller && v == ViewOf(v.id, s.moods[v.id])
    ensures r.Ok? ==> forall i, j :: 0 <= i < j < |r.value| ==> r.value[i].id != r.value[j].id
    ensures r.Ok? ==> forall i, j :: 0 <= i < j < |r.value| ==> r.value[j].timestamp <= r.value[i].timestamp
    ensures r.Ok? && limit.None? ==> |r.value| == Min(DefaultLimit, |OwnedMoods(s, caller)|)
    ensures r.Ok? && limit.Some? && limit.value >= 0 ==> |r.value| == Min(limit.value, |OwnedMoods(s, caller)|)
    ensures r.Ok? && limit.Some? && limit.value < 0 ==>
      forall id :: id in s.moods && s.moods[id].owner == caller ==>
        exists i :: 0 <= i < |r.value| && r.value[i].id == id
    ensures r.Ok? ==> forall id, i ::
      (id in s.moods && s.moods[id].owner == caller && 0 <= i < |r.value| &&
       forall j :: 0 <= j < |r.value| ==> r.value[j].id != id)
      ==> s.moods[id].timestamp <= r.value[i].timestamp
  {
    if limit.Some? && !Bindable(limit.value) {
      return Fail(ServerError);
    }
    var owned := OwnedMoods(s, caller);
    var ids := TopByKey(owned, (m: MoodRecord) => m.timestamp, EffectiveLimit(limit));
    var rows := seq(|ids|, i requires 0 <= i < |ids| => ViewOf(ids[i], owned[ids[i]]));
    forall id | id in owned && EffectiveLimit(limit).None? ensures exists i :: 0 <= i < |rows| && rows[i].id == id {
      var i :| 0 <= i < |ids| && ids[i] == id;
      assert rows[i].id == id;
    }
    forall id, i | id in owned && 0 <= i < |rows| && (forall j :: 0 <= j < |rows| ==> rows[j].id != id)
      ensures owned[id].timestamp <= rows[i].timestamp
    {
      assert forall j :: 0 <= j < |ids| ==> rows[j].id == ids[j];
      assert id !in ids;
    }
    r := Ok(rows);
  }

  /** GET /mood-records/<id>: not found if there is no such record at all,
      forbidden if it is someone else's. An id beyond the INTEGER range makes
      the query raise (500). */
  function GetMoodRecord(s: State, caller: Id, id: Id): (r: Response<MoodView>)
    ensures r == Fail(ServerError) <==> !Bindable(id)
    ensures r == Fail(NotFound) <==> Bindable(id) && id !in s.moods
    ensures r == Fail(Forbidden) <==> Bindable(id) && id in s.moods && s.moods[id].owner != caller
    ensures r.Ok? || r == Fail(ServerError) || r == Fail(NotFound) || r == Fail(Forbidden)
    ensures r.Ok? ==> id in s.moods && s.moods[id].owner == caller && r.value == ViewOf(id, s.moods[id])
  {
    if !Bindable(id) then Fail(ServerError)
    else if id !in s.moods then Fail(NotFound)
    else if s.moods[id].owner != caller then Fail(Forbidden)
    else Ok(ViewOf(id, s.moods[id]))
  }

  /** DELETE /mood-records/<id>: the same not-found/forbidden split; on
      success exactly that record disappears. An id beyond the INTEGER range
      makes the query raise (500). */
  function DeleteMoodRecord(s: State, caller: Id, id: Id): (r: (State, Response<()>))
    ensures r.1.Fail? ==> r.0 == s
    ensures r.1 == Fail(ServerError) <==> !Bindable(id)
    ensures r.1 == Fail(NotFound) <==> Bindable(id) && id !in s.moods
    ensures r.1 == Fail(Forbidden) <==> Bindable(id) && id in s.moods && s.moods[id].owner != caller
    ensures r.1.Ok? <==> Bindable(id) && id in s.moods && s.moods[id].owner == caller
    ensures r.1.Ok? ==>
      && r.0.moods.Keys == s.moods.Keys - {id}
      && (forall other :: other in r.0.moods ==> r.0.moods[other] == s.moods[other])
      && r.0.users == s.users && r.0.sessions == s.sessions && r.0.clock == s.clock
      && r.0.nextUserId == s.nextUserId && r.0.nextMoodId == s.nextMoodId
      && r.0.nextSessionId == s.nextSessionId
  {
    if !Bindable(id) then (s, Fail(ServerError))
    else if id !in s.moods then (s, Fail(NotFound))
    else if s.moods[id].owner != caller then (s, Fail(Forbidden))
    else (s.(moods := s.moods - {id}), Ok(()))
  }

  // ---- GET /stats/emotions ----

  /** `ids` lists every key of `keys` exactly once. */
  ghost predicate Enumerates(ids: seq<Id>, keys: set<Id>) {
    && (forall i, j :: 0 <= i < j < |ids| ==> ids[i] != ids[j])
    && (forall i :: 0 <= i < |ids| ==> ids[i] in keys)
    && (forall k :: k in keys ==> k in ids)
  }

  function RecordsAt(m: map<Id, MoodRecord>, ids: seq<Id>): (recs: seq<MoodRecord>)
    requires forall i :: 0 <= i < |ids| ==> ids[i] in m
    ensures |recs| == |ids| && forall i :: 0 <= i < |ids| ==> recs[i] == m[ids[i]]
  {
    seq(|ids|, i requires 0 <= i < |ids| => m[ids[i]])
  }

  function IdsWithEmotion(m: map<Id, MoodRecord>, ids: seq<Id>, e: string): set<Id>
    requires forall i :: 0 <= i < |ids| ==> ids[i] in m
  {
    set k | k in ids && m[k].emotion == e
  }

  lemma IdsWithEmotionLast(m: map<Id, MoodRecord>, ids: seq<Id>, e: string)
    requires |ids| > 0 && forall i :: 0 <= i < |ids| ==> ids[i] in m
    ensures var init := ids[..|ids| - 1]; var last := ids[|ids| - 1];
      IdsWithEmotion(m, ids, e) ==
        IdsWithEmotion(m, init, e) + (if m[last].emotion == e then {last} else {})
  {
    var init := ids[..|ids| - 1];
    assert ids == init + [ids[|ids| - 1]];
  }

  /** Counting over an enumeration of distinct ids is counting the set of ids. */
  lemma {:induction false} CountOfRecordsAt(m: map<Id, MoodRecord>, ids: seq<Id>, e: string)
    requires forall i :: 0 <= i < |ids| ==> ids[i] in m
    requires forall i, j :: 0 <= i < j < |ids| ==> ids[i] != ids[j]
    ensures CountOf(RecordsAt(m, ids), e) == |IdsWithEmotion(m, ids, e)|
  {
    if |ids| > 0 {
      var init := ids[..|ids| - 1];
      var last := ids[|ids| - 1];
      CountOfRecordsAt(m, init, e);
      var recs := RecordsAt(m, ids);
      assert recs[..|ids| - 1] == RecordsAt(m, init);
      assert CountOf(recs, e) == CountOf(RecordsAt(m, init), e) + (if m[last].emotion == e then 1 else 0);
      IdsWithEmotionLast(m, ids, e);
      assert last !in IdsWithEmotion(m, init, e);
    }
  }

  /** The emotions of the records an enumeration lists are the emotions
      the enumerated rows carry. */
  lemma EmotionsOfRecordsAt(m: map<Id, MoodRecord>, ids: seq<Id>)
    requires forall i :: 0 <= i < |ids| ==> ids[i] in m
    ensures EmotionsOf(RecordsAt(m, ids)) == set k | k in ids :: m[k].emotion
  {
    var recs := RecordsAt(m, ids);
    forall x | x in (set k | k in ids :: m[k].emotion) ensures x in EmotionsOf(recs) {
      var k :| k in ids && m[k].emotion == x;
      var i :| 0 <= i < |ids| && ids[i] == k;
      assert recs[i].emotion == x;
    }
  }

  /** How many of the caller's records carry emotion `e`. */
  function OwnedWithEmotion(s: State, caller: Id, e: string): set<Id> {
    set k | k in s.moods && s.moods[k].owner == caller && s.moods[k].emotion == e
  }

  /** The statistics of the caller's records: one entry per emotion they
      carry, its record count and mean confidence, largest count first; the
      counts add up to the caller's number of records. */
  method GetEmotionStats(s: State, caller: Id) returns (r: seq<EmotionStat>)
    ensures forall i, j :: 0 <= i < j < |r| ==> r[i].emotion != r[j].emotion
    ensures (set i | 0 <= i < |r| :: r[i].emotion) ==
            (set k | k in s.moods && s.moods[k].owner == caller :: s.moods[k].emotion)
    ensures forall i :: 0 <= i < |r| ==> r[i].count == |OwnedWithEmotion(s, caller, r[i].emotion)| > 0
    ensures forall i, j :: 0 <= i < j < |r| ==> r[j].count <= r[i].count
    ensures TotalCount(r) == |OwnedMoods(s, caller)|
    ensures exists ids :: Enumerates(ids, OwnedMoods(s, caller).Keys) && r == EmotionStats(RecordsAt(s.moods, ids))
  {
    var owned := OwnedMoods(s, caller);
    var ids := TopByKey(owned, (m: MoodRecord) => m.timestamp, None);
    assert Enumerates(ids, owned.Keys);
    var recs := RecordsAt(s.moods, ids);
    r := EmotionStats(recs);
    EmotionsOfRecordsAt(s.moods, ids);
    assert (set k | k in ids :: s.moods[k].emotion) ==
           (set k | k in s.moods && s.moods[k].owner == caller :: s.moods[k].emotion);
    forall i | 0 <= i < |r| ensures r[i].count == |OwnedWithEmotion(s, caller, r[i].emotion)| {
      var e := r[i].emotion;
      CountOfRecordsAt(s.moods, ids, e);
      assert IdsWithEmotion(s.moods, ids, e) == OwnedWithEmotion(s, caller, e);
    }
  }
}
