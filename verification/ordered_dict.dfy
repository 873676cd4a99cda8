/** A Python `dict` as the source uses it: entries kept in insertion order, a repeated key
    overwriting the value in place (the entry keeps its original position). */
module OrderedDict {
  import opened Wrappers

  type Dict<K, V> = seq<(K, V)>

  ghost predicate UniqueKeys<K, V>(d: Dict<K, V>) {
    forall i, j :: 0 <= i < j < |d| ==> d[i].0 != d[j].0
  }

  /** `d.get(k)`: the value stored under `k`, if any. */
  function Get<K(==), V>(d: Dict<K, V>, k: K): (r: Option<V>)
    ensures r.Some? <==> exists i :: 0 <= i < |d| && d[i].0 == k
    ensures r.Some? ==> (k, r.value) in d
    decreases |d|
  {
    if |d| == 0 then None
    else if d[0].0 == k then Some(d[0].1)
    else
      var r := Get(d[1..], k);
      assert forall i :: 1 <= i < |d| ==> d[i] == d[1..][i - 1];
      r
  }

  /** `d[k] = v`: overwrite in place when `k` is present, otherwise append a new entry. */
  function Put<K(==), V>(d: Dict<K, V>, k: K, v: V): (r: Dict<K, V>)
    ensures Get(r, k) == Some(v)
    ensures Get(d, k).Some? ==> |r| == |d| && forall i :: 0 <= i < |d| ==> r[i].0 == d[i].0
    ensures Get(d, k).None? ==> r == d + [(k, v)]
    decreases |d|
  {
    if |d| == 0 then [(k, v)]
    else if d[0].0 == k then [(k, v)] + d[1..]
    else [d[0]] + Put(d[1..], k, v)
  }

  /** Writing `k` leaves every other key's value alone and keeps the keys unique. */
  lemma {:induction false} PutOthers<K, V>(d: Dict<K, V>, k: K, v: V, k': K)
    requires k' != k
    ensures Get(Put(d, k, v), k') == Get(d, k')
    decreases |d|
  {
    if |d| > 0 && d[0].0 != k {
      PutOthers(d[1..], k, v, k');
    }
  }

  lemma PutUnique<K, V>(d: Dict<K, V>, k: K, v: V)
    requires UniqueKeys(d)
    ensures UniqueKeys(Put(d, k, v))
  {
    var r := Put(d, k, v);
    if Get(d, k).None? {
      assert forall i :: 0 <= i < |d| ==> d[i].0 != k;
    }
  }

  /** The value of the last pair in `ps` whose key is `k`. */
  function LastValue<K(==), V>(ps: seq<(K, V)>, k: K): Option<V>
    decreases |ps|
  {
    if |ps| == 0 then None
    else if ps[|ps| - 1].0 == k then Some(ps[|ps| - 1].1)
    else LastValue(ps[..|ps| - 1], k)
  }

  /** The dict built by writing the pairs of `ps` one after another. */
  function FromPairs<K(==), V>(ps: seq<(K, V)>): (d: Dict<K, V>)
    ensures |d| <= |ps|
    decreases |ps|
  {
    if |ps| == 0 then [] else Put(FromPairs(ps[..|ps| - 1]), ps[|ps| - 1].0, ps[|ps| - 1].1)
  }

  /** Last write wins: after writing all pairs, each key holds the value of its last pair. */
  lemma {:induction false} FromPairsLastWins<K, V>(ps: seq<(K, V)>, k: K)
    ensures Get(FromPairs(ps), k) == LastValue(ps, k)
    ensures UniqueKeys(FromPairs(ps))
    decreases |ps|
  {
    if |ps| > 0 {
      var n := |ps| - 1;
      FromPairsLastWins(ps[..n], k);
      PutUnique(FromPairs(ps[..n]), ps[n].0, ps[n].1);
      if ps[n].0 != k {
        PutOthers(FromPairs(ps[..n]), ps[n].0, ps[n].1, k);
      }
    }
  }
}
