/** The aggregation behind GET /stats/emotions:
    `SELECT emotion, COUNT(*), AVG(confidence) ... GROUP BY emotion ORDER BY count DESC`
    as a pure function of the caller's mood records. */
module Stats {

  import opened Outcomes
  import opened Schema

  /** One row of the answer. */
  datatype EmotionStat = EmotionStat(emotion: string, count: nat, avgConfidence: real)

  // ---- Reference definitions ----

  /** How many of `recs` carry emotion `e`. */
  function CountOf(recs: seq<MoodRecord>, e: string): nat {
    if |recs| == 0 then 0
    else CountOf(recs[..|recs| - 1], e) + (if recs[|recs| - 1].emotion == e then 1 else 0)
  }

  /** The sum of the confidences of those of `recs` that carry emotion `e`. */
  function SumOf(recs: seq<MoodRecord>, e: string): real {
    if |recs| == 0 then 0.0
    else SumOf(recs[..|recs| - 1], e) + (if recs[|recs| - 1].emotion == e then recs[|recs| - 1].confidence else 0.0)
  }

  function EmotionsOf(recs: seq<MoodRecord>): set<string> {
    set k | 0 <= k < |recs| :: recs[k].emotion
  }

  function TotalCount(stats: seq<EmotionStat>): nat {
    if |stats| == 0 then 0 else stats[0].count + TotalCount(stats[1..])
  }

  lemma {:induction false} CountOfLast(recs: seq<MoodRecord>, r: MoodRecord, e: string)
    ensures CountOf(recs + [r], e) == CountOf(recs, e) + (if r.emotion == e then 1 else 0)
    ensures SumOf(recs + [r], e) == SumOf(recs, e) + (if r.emotion == e then r.confidence else 0.0)
  {
    assert (recs + [r])[..|recs|] == recs;
  }

  lemma {:induction false} CountOfPositive(recs: seq<MoodRecord>, e: string)
    ensures CountOf(recs, e) > 0 <==> e in EmotionsOf(recs)
    ensures CountOf(recs, e) == 0 ==> SumOf(recs, e) == 0.0
  {
    if |recs| > 0 {
      var init := recs[..|recs| - 1];
      CountOfPositive(init, e);
      assert recs == init + [recs[|recs| - 1]];
      assert EmotionsOf(recs) == EmotionsOf(init) + {recs[|recs| - 1].emotion} by {
        forall x | x in EmotionsOf(recs) ensures x in EmotionsOf(init) + {recs[|recs| - 1].emotion} {
          var k :| 0 <= k < |recs| && recs[k].emotion == x;
          if k < |init| {
            assert init[k] == recs[k];
          }
        }
        forall x | x in EmotionsOf(init) ensures x in EmotionsOf(recs) {
          var k :| 0 <= k < |init| && init[k].emotion == x;
          assert recs[k] == init[k];
        }
      }
    }
  }

  // ---- Grouping ----

  /** A running group: its emotion, how many records, and their total confidence. */
  datatype Group = Group(emotion: string, count: nat, total: real)

  ghost predicate Distinct(gs: seq<Group>) {
    forall i, j :: 0 <= i < j < |gs| ==> gs[i].emotion != gs[j].emotion
  }

  function Find(gs: seq<Group>, e: string): (r: Option<Group>)
    ensures r.Some? ==> r.value in gs && r.value.emotion == e
    ensures r.None? ==> forall i :: 0 <= i < |gs| ==> gs[i].emotion != e
  {
    if |gs| == 0 then None
    else if gs[0].emotion == e then Some(gs[0])
    else Find(gs[1..], e)
  }

  lemma {:induction false} FindAt(gs: seq<Group>, i: nat)
    requires Distinct(gs) && i < |gs|
    ensures Find(gs, gs[i].emotion) == Some(gs[i])
  {
    if i > 0 {
      FindAt(gs[1..], i - 1);
    }
  }

  /** The group `g` (if any) after record `r` joins it. */
  function Join(g: Option<Group>, r: MoodRecord): Group {
    match g
    case None => Group(r.emotion, 1, r.confidence)
    case Some(g) => Group(g.emotion, g.count + 1, g.total + r.confidence)
  }

  /** Record `r` joins its emotion's group, or starts one at the end. */
  function Add(gs: seq<Group>, r: MoodRecord): (gs': seq<Group>)
    ensures forall x :: x in gs' ==> x in gs || x.emotion == r.emotion
  {
    if |gs| == 0 then [Join(None, r)]
    else if gs[0].emotion == r.emotion then [Join(Some(gs[0]), r)] + gs[1..]
    else [gs[0]] + Add(gs[1..], r)
  }

  lemma {:induction false} AddFind(gs: seq<Group>, r: MoodRecord, e: string)
    requires Distinct(gs)
    ensures Distinct(Add(gs, r))
    ensures Find(Add(gs, r), e) == if e == r.emotion then Some(Join(Find(gs, e), r)) else Find(gs, e)
  {
    if |gs| > 0 && gs[0].emotion != r.emotion {
      AddFind(gs[1..], r, e);
      var tail := Add(gs[1..], r);
      forall j | 0 <= j < |tail| ensures tail[j].emotion != gs[0].emotion {
        assert tail[j] in tail;
      }
    }
  }

  /** The group a grouping of `recs` must hold for emotion `e`. */
  function Expected(recs: seq<MoodRecord>, e: string): Option<Group> {
    if CountOf(recs, e) == 0 then None else Some(Group(e, CountOf(recs, e), SumOf(recs, e)))
  }

  /** Records are grouped in order; a group is created by the first record of
      its emotion. */
  function GroupAll(recs: seq<MoodRecord>): seq<Group> {
    if |recs| == 0 then [] else Add(GroupAll(recs[..|recs| - 1]), recs[|recs| - 1])
  }

  function SumGroupCounts(gs: seq<Group>): nat {
    if |gs| == 0 then 0 else gs[0].count + SumGroupCounts(gs[1..])
  }

  lemma {:induction false} AddCount(gs: seq<Group>, r: MoodRecord)
    ensures SumGroupCounts(Add(gs, r)) == SumGroupCounts(gs) + 1
  {
    if |gs| > 0 {
      if gs[0].emotion == r.emotion {
        assert (([Join(Some(gs[0]), r)] + gs[1..])[1..]) == gs[1..];
      } else {
        AddCount(gs[1..], r);
        assert ([gs[0]] + Add(gs[1..], r))[1..] == Add(gs[1..], r);
      }
    }
  }

  lemma {:induction false} GroupAllStep(gs: seq<Group>, init: seq<MoodRecord>, r: MoodRecord, e: string)
    requires Distinct(gs)
    requires Find(gs, e) == Expected(init, e)
    ensures Find(Add(gs, r), e) == Expected(init + [r], e)
  {
    AddFind(gs, r, e);
    CountOfLast(init, r, e);
    CountOfPositive(init, e);
    var c := CountOf(init, e);
    var total := SumOf(init, e);
    if e == r.emotion {
      assert CountOf(init + [r], e) == c + 1;
      assert SumOf(init + [r], e) == total + r.confidence;
      assert Expected(init + [r], e) == Some(Group(e, c + 1, total + r.confidence));
    } else {
      assert CountOf(init + [r], e) == c;
      assert SumOf(init + [r], e) == total;
    }
  }

  /** GroupAll holds exactly one group per emotion present, with that
      emotion's count and total, and its counts add up to the number of
      records. */
  lemma {:induction false} GroupAllCorrect(recs: seq<MoodRecord>)
    ensures Distinct(GroupAll(recs))
    ensures forall e :: Find(GroupAll(recs), e) == Expected(recs, e)
    ensures SumGroupCounts(GroupAll(recs)) == |recs|
  {
    if |recs| > 0 {
      var init := recs[..|recs| - 1];
      var r := recs[|recs| - 1];
      assert recs == init + [r];
      GroupAllCorrect(init);
      var gs := GroupAll(init);
      assert GroupAll(recs) == Add(gs, r);
      AddCount(gs, r);
      AddFind(gs, r, r.emotion);
      forall e ensures Find(Add(gs, r), e) == Expected(init + [r], e) {
        GroupAllStep(gs, init, r, e);
      }
    }
  }

  // ---- ORDER BY count DESC ----

  ghost predicate CountsDescending(gs: seq<Group>) {
    forall i, j :: 0 <= i < j < |gs| ==> gs[j].count <= gs[i].count
  }

  /** Inserts `g` before the first group whose count does not exceed its own. */
  function Insert(g: Group, gs: seq<Group>): (r: seq<Group>)
    ensures |r| == |gs| + 1
    ensures forall x :: x in r <==> x == g || x in gs
    ensures CountsDescending(gs) ==> CountsDescending(r)
  {
    if |gs| == 0 || gs[0].count <= g.count then
      [g] + gs
    else
      var tail := Insert(g, gs[1..]);
      assert CountsDescending(gs) ==> forall x :: x in tail ==> x.count <= gs[0].count by {
        if CountsDescending(gs) {
          forall x | x in tail ensures x.count <= gs[0].count {
            if x in gs[1..] {
              var k :| 0 <= k < |gs[1..]| && gs[1..][k] == x;
              assert gs[k + 1].count <= gs[0].count;
            }
          }
        }
      }
      [gs[0]] + tail
  }

  lemma {:induction false} InsertKeepsTotal(g: Group, gs: seq<Group>)
    ensures SumGroupCounts(Insert(g, gs)) == g.count + SumGroupCounts(gs)
  {
    if |gs| == 0 || gs[0].count <= g.count {
      assert ([g] + gs)[1..] == gs;
    } else {
      InsertKeepsTotal(g, gs[1..]);
      assert ([gs[0]] + Insert(g, gs[1..]))[1..] == Insert(g, gs[1..]);
    }
  }

  lemma {:induction false} InsertKeepsDistinct(g: Group, gs: seq<Group>)
    requires Distinct(gs)
    requires forall i :: 0 <= i < |gs| ==> gs[i].emotion != g.emotion
    ensures Distinct(Insert(g, gs))
  {
    if !(|gs| == 0 || gs[0].count <= g.count) {
      InsertKeepsDistinct(g, gs[1..]);
      var tail := Insert(g, gs[1..]);
      forall j | 0 <= j < |tail| ensures tail[j].emotion != gs[0].emotion {
        assert tail[j] in tail;
      }
    }
  }

  function SortByCount(gs: seq<Group>): (r: seq<Group>)
    ensures |r| == |gs|
    ensures forall x :: x in r <==> x in gs
    ensures CountsDescending(r)
  {
    if |gs| == 0 then [] else Insert(gs[0], SortByCount(gs[1..]))
  }

  /** Inserting adds exactly `g` and keeps every group already there. */
  lemma {:induction false} InsertPermutes(g: Group, gs: seq<Group>)
    ensures multiset(Insert(g, gs)) == multiset(gs) + multiset{g}
  {
    if |gs| == 0 || gs[0].count <= g.count {
      assert Insert(g, gs) == [g] + gs;
    } else {
      InsertPermutes(g, gs[1..]);
      assert gs == [gs[0]] + gs[1..];
      assert Insert(g, gs) == [gs[0]] + Insert(g, gs[1..]);
    }
  }

  /** Sorting only reorders: the same groups, each as often as before. */
  lemma {:induction false} SortByCountPermutes(gs: seq<Group>)
    ensures multiset(SortByCount(gs)) == multiset(gs)
  {
    if |gs| > 0 {
      SortByCountPermutes(gs[1..]);
      InsertPermutes(gs[0], SortByCount(gs[1..]));
      assert gs == [gs[0]] + gs[1..];
    }
  }

  /** Sorting neither changes the total nor creates duplicate emotions. */
  lemma {:induction false} SortByCountKeeps(gs: seq<Group>)
    ensures SumGroupCounts(SortByCount(gs)) == SumGroupCounts(gs)
    ensures Distinct(gs) ==> Distinct(SortByCount(gs))
  {
    if |gs| > 0 {
      var rest := SortByCount(gs[1..]);
      SortByCountKeeps(gs[1..]);
      InsertKeepsTotal(gs[0], rest);
      if Distinct(gs) {
        forall i | 0 <= i < |rest| ensures rest[i].emotion != gs[0].emotion {
          assert rest[i] in gs[1..];
        }
        InsertKeepsDistinct(gs[0], rest);
      }
    }
  }

  // ---- The statistics ----

  function ToStat(g: Group): EmotionStat
    requires g.count > 0
  {
    EmotionStat(g.emotion, g.count, g.total / g.count as real)
  }

  /** One entry per distinct emotion among `recs`, with how many records
      carry it and the exact mean of their confidences, largest count first. */
  function EmotionStats(recs: seq<MoodRecord>): (r: seq<EmotionStat>)
    ensures forall i, j :: 0 <= i < j < |r| ==> r[i].emotion != r[j].emotion
    ensures (set i | 0 <= i < |r| :: r[i].emotion) == EmotionsOf(recs)
    ensures forall i :: 0 <= i < |r| ==>
      && r[i].count == CountOf(recs, r[i].emotion) > 0
      && r[i].avgConfidence == SumOf(recs, r[i].emotion) / r[i].count as real
    ensures forall i, j :: 0 <= i < j < |r| ==> r[j].count <= r[i].count
    ensures TotalCount(r) == |recs|
  {
    var grouped := GroupAll(recs);
    GroupAllCorrect(recs);
    var sorted := SortByCount(grouped);
    SortByCountKeeps(grouped);
    assert forall i :: 0 <= i < |sorted| ==>
      sorted[i].count == CountOf(recs, sorted[i].emotion) > 0 &&
      sorted[i].total == SumOf(recs, sorted[i].emotion) by {
      forall i | 0 <= i < |sorted|
        ensures sorted[i].count == CountOf(recs, sorted[i].emotion) > 0
        ensures sorted[i].total == SumOf(recs, sorted[i].emotion)
      {
        assert sorted[i] in grouped;
        var k :| 0 <= k < |grouped| && grouped[k] == sorted[i];
        FindAt(grouped, k);
        assert Find(grouped, grouped[k].emotion) == Expected(recs, grouped[k].emotion);
      }
    }
    var r := seq(|sorted|, i requires 0 <= i < |sorted| => ToStat(sorted[i]));
    StatsCover(recs, grouped, sorted, r);
    TotalCountOfStats(sorted, r);
    r
  }

  lemma StatsCover(recs: seq<MoodRecord>, grouped: seq<Group>, sorted: seq<Group>, r: seq<EmotionStat>)
    requires forall e :: Find(grouped, e) == Expected(recs, e)
    requires forall x :: x in sorted <==> x in grouped
    requires |r| == |sorted| && forall i :: 0 <= i < |r| ==> r[i].emotion == sorted[i].emotion
    ensures (set i | 0 <= i < |r| :: r[i].emotion) == EmotionsOf(recs)
  {
    forall e | e in EmotionsOf(recs) ensures e in (set i | 0 <= i < |r| :: r[i].emotion) {
      CountOfPositive(recs, e);
      assert Find(grouped, e).Some?;
      var g := Find(grouped, e).value;
      assert g in sorted;
      var i :| 0 <= i < |sorted| && sorted[i] == g;
      assert r[i].emotion == e;
    }
    forall e | e in (set i | 0 <= i < |r| :: r[i].emotion) ensures e in EmotionsOf(recs) {
      var i :| 0 <= i < |r| && r[i].emotion == e;
      assert sorted[i] in grouped;
      var k :| 0 <= k < |grouped| && grouped[k] == sorted[i];
      assert Find(grouped, e).Some?;
      CountOfPositive(recs, e);
    }
  }

  lemma {:induction false} TotalCountOfStats(gs: seq<Group>, r: seq<EmotionStat>)
    requires |r| == |gs| && forall i :: 0 <= i < |r| ==> r[i].count == gs[i].count
    ensures TotalCount(r) == SumGroupCounts(gs)
  {
    if |gs| > 0 {
      TotalCountOfStats(gs[1..], r[1..]);
    }
  }
}
