/** Ordered enumeration of a table: the `ORDER BY <column> DESC LIMIT n`
    part of the listing queries. */
module Collections {

  import opened Outcomes

  function Min(a: nat, b: nat): nat {
    if a <= b then a else b
  }

  predicate IsLeast(m: nat, ks: set<nat>) {
    m in ks && forall k :: k in ks ==> m <= k
  }

  /** A finite non-empty set of ids has a least element. */
  lemma {:induction false} HasLeast(ks: set<nat>)
    requires ks != {}
    ensures exists m :: IsLeast(m, ks)
    decreases |ks|
  {
    var x :| x in ks;
    var rest := ks - {x};
    assert ks == rest + {x};
    if rest != {} {
      HasLeast(rest);
      var y :| IsLeast(y, rest);
      if x <= y {
        assert IsLeast(x, ks);
      } else {
        assert IsLeast(y, ks);
      }
    } else {
      assert ks == {x};
      assert IsLeast(x, ks);
    }
  }

  /** Among a finite non-empty set of rows, one has the greatest sort key. */
  lemma {:induction false} HasGreatestKey<T>(m: map<nat, T>, ks: set<nat>, key: T -> int)
    requires ks != {} && ks <= m.Keys
    ensures exists k :: k in ks && forall j :: j in ks ==> key(m[j]) <= key(m[k])
    decreases |ks|
  {
    var x :| x in ks;
    var rest := ks - {x};
    assert ks == rest + {x};
    if rest != {} {
      HasGreatestKey(m, rest, key);
      var y :| y in rest && forall j :: j in rest ==> key(m[j]) <= key(m[y]);
      if key(m[y]) <= key(m[x]) {
        assert forall j :: j in ks ==> key(m[j]) <= key(m[x]);
      } else {
        assert forall j :: j in ks ==> key(m[j]) <= key(m[y]);
      }
    } else {
      assert ks == {x};
    }
  }

  /** The ids of the rows of `m` in non-increasing `key` order, cut off after
      `limit` rows when there is a limit. Rows with equal keys come in no
      particular order. The rows left out by the limit have keys no greater
      than any row returned. */
  method TopByKey<T>(m: map<nat, T>, key: T -> int, limit: Option<nat>) returns (ids: seq<nat>)
    ensures forall i :: 0 <= i < |ids| ==> ids[i] in m
    ensures forall i, j :: 0 <= i < j < |ids| ==> ids[i] != ids[j]
    ensures forall i, j :: 0 <= i < j < |ids| ==> key(m[ids[j]]) <= key(m[ids[i]])
    ensures limit.None? ==> |ids| == |m| && forall id :: id in m ==> id in ids
    ensures limit.Some? ==> |ids| == Min(limit.value, |m|)
    ensures forall id, i :: id in m && id !in ids && 0 <= i < |ids| ==> key(m[id]) <= key(m[ids[i]])
  {
    ids := [];
    var rest := m.Keys;
    while rest != {} && (limit.None? || |ids| < limit.value)
      invariant rest <= m.Keys
      invariant forall i :: 0 <= i < |ids| ==> ids[i] in m && ids[i] !in rest
      invariant forall i, j :: 0 <= i < j < |ids| ==> ids[i] != ids[j]
      invariant forall id :: id in m ==> id in rest || id in ids
      invariant |ids| + |rest| == |m.Keys|
      invariant forall i, j :: 0 <= i < j < |ids| ==> key(m[ids[j]]) <= key(m[ids[i]])
      invariant forall id, i :: id in rest && 0 <= i < |ids| ==> key(m[id]) <= key(m[ids[i]])
      invariant limit.Some? ==> |ids| <= limit.value
      decreases rest
    {
      HasGreatestKey(m, rest, key);
      var k :| k in rest && forall j :: j in rest ==> key(m[j]) <= key(m[k]);
      ids := ids + [k];
      rest := rest - {k};
    }
    assert |m| == |m.Keys|;
  }
}
