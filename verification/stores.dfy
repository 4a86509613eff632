/** A persisted collection seen through its natural key: an upsert matches on
    the key and replaces the stored value, or inserts when nothing matches
    (`update(..., {upsert: true})` at app_api/jobs/catchup.js:192-212, 231-251
    and 418-439). Writes are taken to complete in the order they are issued. */
module Stores {

  function Upsert<K, V>(m: map<K, V>, k: K, v: V): (r: map<K, V>)
    ensures k in r && r[k] == v
    ensures r.Keys == m.Keys + {k}
    ensures forall k' :: k' in m && k' != k ==> r[k'] == m[k']
  {
    m[k := v]
  }

  /** A series of upserts, applied in order. */
  function UpsertAll<K, V>(m: map<K, V>, ws: seq<(K, V)>): map<K, V>
    decreases |ws|
  {
    if |ws| == 0 then m else UpsertAll(Upsert(m, ws[0].0, ws[0].1), ws[1..])
  }

  /** Applying a series of upserts is overlaying the map the series alone builds. */
  lemma {:induction false} UpsertAllIsOverlay<K, V>(m: map<K, V>, ws: seq<(K, V)>)
    ensures UpsertAll(m, ws) == m + UpsertAll(map[], ws)
    decreases |ws|
  {
    if |ws| > 0 {
      var k, v := ws[0].0, ws[0].1;
      UpsertAllIsOverlay(m[k := v], ws[1..]);
      UpsertAllIsOverlay(map[k := v], ws[1..]);
      assert map[][k := v] == map[k := v];
      assert m[k := v] == m + map[k := v];
      OverlayAssoc(m, map[k := v], UpsertAll(map[], ws[1..]));
    }
  }

  lemma OverlayAssoc<K, V>(a: map<K, V>, b: map<K, V>, c: map<K, V>)
    ensures (a + b) + c == a + (b + c)
  {
  }

  /** Re-issuing the same series of upserts changes nothing. */
  lemma UpsertAllIdempotent<K, V>(m: map<K, V>, ws: seq<(K, V)>)
    ensures UpsertAll(UpsertAll(m, ws), ws) == UpsertAll(m, ws)
  {
    var w := UpsertAll(map[], ws);
    UpsertAllIsOverlay(m, ws);
    UpsertAllIsOverlay(m + w, ws);
    assert (m + w) + w == m + w;
  }

  /** The keys after a series of upserts are the old keys plus the written ones. */
  lemma {:induction false} UpsertAllKeys<K, V>(m: map<K, V>, ws: seq<(K, V)>)
    ensures UpsertAll(m, ws).Keys == m.Keys + (set i | 0 <= i < |ws| :: ws[i].0)
    decreases |ws|
  {
    if |ws| > 0 {
      UpsertAllKeys(m[ws[0].0 := ws[0].1], ws[1..]);
      var rest := set i | 0 <= i < |ws[1..]| :: ws[1..][i].0;
      var all := set i | 0 <= i < |ws| :: ws[i].0;
      forall k | k in all
        ensures k == ws[0].0 || k in rest
      {
        var i :| 0 <= i < |ws| && ws[i].0 == k;
        if i > 0 {
          assert ws[1..][i - 1].0 == k;
        }
      }
      forall k | k in rest
        ensures k in all
      {
        var i :| 0 <= i < |ws[1..]| && ws[1..][i].0 == k;
        assert ws[i + 1].0 == k;
      }
    }
  }

  /** A key no upsert of the series names keeps its old presence and value. */
  lemma {:induction false} UpsertAllUntouched<K, V>(m: map<K, V>, ws: seq<(K, V)>, k: K)
    requires forall i :: 0 <= i < |ws| ==> ws[i].0 != k
    ensures k in UpsertAll(m, ws) <==> k in m
    ensures k in m ==> UpsertAll(m, ws)[k] == m[k]
    decreases |ws|
  {
    if |ws| > 0 {
      UpsertAllUntouched(m[ws[0].0 := ws[0].1], ws[1..], k);
    }
  }

  /** The last upsert of a key decides its stored value. */
  lemma {:induction false} UpsertAllLastWins<K, V>(m: map<K, V>, ws: seq<(K, V)>, i: int)
    requires 0 <= i < |ws|
    requires forall j :: i < j < |ws| ==> ws[j].0 != ws[i].0
    ensures ws[i].0 in UpsertAll(m, ws) && UpsertAll(m, ws)[ws[i].0] == ws[i].1
    decreases |ws|
  {
    if i == 0 {
      UpsertAllUntouched(m[ws[0].0 := ws[0].1], ws[1..], ws[0].0);
    } else {
      UpsertAllLastWins(m[ws[0].0 := ws[0].1], ws[1..], i - 1);
    }
  }
}
