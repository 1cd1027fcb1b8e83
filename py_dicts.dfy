/**
 * Python dicts as the ETL scripts use them: items kept in insertion order,
 * each key once, and an assignment to an existing key replacing its value
 * where it stands.
 */
module PyDicts {
  import opened Wrappers

  predicate DistinctKeys<K(==), V>(d: seq<(K, V)>) {
    forall i, j :: 0 <= i < j < |d| ==> d[i].0 != d[j].0
  }

  function Keys<K, V>(d: seq<(K, V)>): (r: seq<K>)
    ensures |r| == |d| && forall i :: 0 <= i < |d| ==> r[i] == d[i].0
  {
    seq(|d|, i requires 0 <= i < |d| => d[i].0)
  }

  function Values<K, V>(d: seq<(K, V)>): (r: seq<V>)
    ensures |r| == |d| && forall i :: 0 <= i < |d| ==> r[i] == d[i].1
  {
    seq(|d|, i requires 0 <= i < |d| => d[i].1)
  }

  /**
   * The value of `k` among `items`, the last one when the key repeats (as in
   * a dict built from them); `None` when the key is absent.
   */
  function Get<K(==), V>(items: seq<(K, V)>, k: K): (r: Option<V>)
    ensures r.Some? <==> exists i :: 0 <= i < |items| && items[i].0 == k
    ensures r.Some? ==> exists i :: 0 <= i < |items| && items[i] == (k, r.value) && LastWith(items, k, i)
    decreases |items|
  {
    if |items| == 0 then None
    else
      var n := |items| - 1;
      if items[n].0 == k then Some(items[n].1)
      else
        var r := Get(items[..n], k);
        assert forall i :: 0 <= i < n ==> items[..n][i] == items[i];
        assert forall i :: 0 <= i < n && LastWith(items[..n], k, i) ==> LastWith(items, k, i);
        r
  }

  /** No item after the `i`-th carries the key `k`. */
  predicate LastWith<K(==), V>(items: seq<(K, V)>, k: K, i: nat) {
    forall j :: i < j < |items| ==> items[j].0 != k
  }

  /** `d[k] = v` */
  function Put<K(==), V>(d: seq<(K, V)>, k: K, v: V): (r: seq<(K, V)>)
    requires DistinctKeys(d)
    ensures DistinctKeys(r)
    ensures Keys(r) == if k in Keys(d) then Keys(d) else Keys(d) + [k]
  {
    if k in Keys(d) then
      var i :| 0 <= i < |d| && Keys(d)[i] == k;
      d[i := (k, v)]
    else
      d + [(k, v)]
  }

  /** Reading back: the new key holds the new value, and every other key keeps its value. */
  lemma PutGet<K, V>(d: seq<(K, V)>, k: K, v: V, q: K)
    requires DistinctKeys(d)
    ensures Get(Put(d, k, v), q) == if q == k then Some(v) else Get(d, q)
  {
    var r := Put(d, k, v);
    if k in Keys(d) {
      var i :| 0 <= i < |d| && Keys(d)[i] == k;
      assert r == d[i := (k, v)];
      if q == k {
        assert r[i] == (k, v);
        UniqueKeyGet(r, i);
      } else {
        GetSameKeys(d, r, q);
      }
    } else {
      if q != k {
        assert r[..|d|] == d;
      }
    }
  }

  /** In a dict, a key's value is the one stored with it. */
  lemma UniqueKeyGet<K, V>(d: seq<(K, V)>, i: nat)
    requires DistinctKeys(d) && i < |d|
    ensures Get(d, d[i].0) == Some(d[i].1)
  {
    var r := Get(d, d[i].0);
    var j :| 0 <= j < |d| && d[j] == (d[i].0, r.value) && forall m :: j < m < |d| ==> d[m].0 != d[i].0;
  }

  /** Changing values under other keys does not change the value of `q`. */
  lemma GetSameKeys<K, V>(d: seq<(K, V)>, e: seq<(K, V)>, q: K)
    requires |d| == |e| && forall i :: 0 <= i < |d| ==> d[i].0 == e[i].0 && (d[i].0 == q ==> d[i] == e[i])
    ensures Get(d, q) == Get(e, q)
    decreases |d|
  {
    if |d| > 0 {
      var n := |d| - 1;
      assert forall i :: 0 <= i < n ==> d[..n][i] == d[i] && e[..n][i] == e[i];
      GetSameKeys(d[..n], e[..n], q);
      assert d[n].0 == e[n].0;
    }
  }

  /** A dict built from `items` (a literal, `dict(...)` or a comprehension): later items overwrite earlier ones. */
  function FromItems<K(==), V>(items: seq<(K, V)>): (d: seq<(K, V)>)
    ensures DistinctKeys(d)
    decreases |items|
  {
    if |items| == 0 then []
    else Put(FromItems(items[..|items| - 1]), items[|items| - 1].0, items[|items| - 1].1)
  }

  /** The dict holds each key of the items once, in order of first appearance, with the key's last value. */
  lemma {:induction false} FromItemsGet<K, V>(items: seq<(K, V)>, q: K)
    ensures Get(FromItems(items), q) == Get(items, q)
    decreases |items|
  {
    if |items| > 0 {
      var n := |items| - 1;
      var prev := FromItems(items[..n]);
      assert FromItems(items) == Put(prev, items[n].0, items[n].1);
      FromItemsGet(items[..n], q);
      PutGet(prev, items[n].0, items[n].1, q);
    }
  }

  /** The dict's keys are those of the items, in order of first appearance. */
  lemma {:induction false} FromItemsKeys<K, V>(items: seq<(K, V)>)
    ensures Keys(FromItems(items)) == FirstKeys(items)
    decreases |items|
  {
    if |items| > 0 {
      var n := |items| - 1;
      FromItemsKeys(items[..n]);
    }
  }

  /** The keys of `items` without repeats, each where it first appears. */
  function FirstKeys<K(==), V>(items: seq<(K, V)>): (r: seq<K>)
    ensures forall i :: 0 <= i < |items| ==> items[i].0 in r
    ensures forall m :: 0 <= m < |r| ==> exists i :: 0 <= i < |items| && items[i].0 == r[m]
    decreases |items|
  {
    if |items| == 0 then []
    else
      var n := |items| - 1;
      var prev := FirstKeys(items[..n]);
      assert forall i :: 0 <= i < n ==> items[..n][i] == items[i];
      if items[n].0 in prev then prev else prev + [items[n].0]
  }

  /** Items with distinct keys make a dict of exactly those items. */
  lemma {:induction false} FromDistinctItems<K, V>(items: seq<(K, V)>)
    requires DistinctKeys(items)
    ensures FromItems(items) == items
    decreases |items|
  {
    if |items| > 0 {
      var n := |items| - 1;
      assert DistinctKeys(items[..n]);
      FromDistinctItems(items[..n]);
      assert items[n].0 !in Keys(items[..n]);
      assert items[..n] + [items[n]] == items;
    }
  }

  /** A lookup in items followed by more items: the later items win. */
  lemma {:induction false} GetAppend<K, V>(a: seq<(K, V)>, b: seq<(K, V)>, k: K)
    ensures Get(a + b, k) == if Get(b, k).Some? then Get(b, k) else Get(a, k)
    decreases |b|
  {
    if |b| > 0 {
      var n := |b| - 1;
      assert (a + b)[..|a| + n] == a + b[..n];
      GetAppend(a, b[..n], k);
    } else {
      assert a + b == a;
    }
  }

  /** `{k: v for k, v in d.items() if k in keep}` */
  function Filter<K(==,!new), V(!new)>(d: seq<(K, V)>, keep: set<K>): (r: seq<(K, V)>)
    ensures forall x :: x in r <==> x in d && x.0 in keep
    decreases |d|
  {
    if |d| == 0 then []
    else
      var n := |d| - 1;
      assert d == d[..n] + [d[n]];
      var before := Filter(d[..n], keep);
      if d[n].0 in keep then before + [d[n]] else before
  }

  /** A filtered dict keeps the value of every key it keeps, and has no other key. */
  lemma {:induction false} FilterGet<K(!new), V(!new)>(d: seq<(K, V)>, keep: set<K>, k: K)
    ensures Get(Filter(d, keep), k) == if k in keep then Get(d, k) else None
    decreases |d|
  {
    if |d| > 0 {
      var n := |d| - 1;
      FilterGet(d[..n], keep, k);
    }
  }

  /** The items as a Dafny map, a repeated key taking its last value. */
  function ToMap<K(==,!new), V>(items: seq<(K, V)>): (m: map<K, V>)
    ensures forall k :: k in m <==> Get(items, k).Some?
    ensures forall k :: k in m ==> Get(items, k) == Some(m[k])
    decreases |items|
  {
    if |items| == 0 then map[]
    else
      var n := |items| - 1;
      ToMap(items[..n])[items[n].0 := items[n].1]
  }

  /** Assigning one more key: `d[k] = v` on the dict of the items so far. */
  lemma FromItemsSnoc<K, V>(items: seq<(K, V)>, x: (K, V))
    ensures FromItems(items + [x]) == Put(FromItems(items), x.0, x.1)
  {
    assert (items + [x])[..|items|] == items;
  }
}
