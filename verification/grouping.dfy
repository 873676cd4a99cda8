/** `defaultdict(list)` grouping: one pass over the items, each appended to the list of its key,
    the keys kept in first-seen order. */
module Grouping {
  import opened Seqs

  datatype Group<K, T> = Group(key: K, members: seq<T>)

  /** The items of `xs` whose key is `k`, in their original order (the reference partition). */
  function WithKey<K(==), T>(xs: seq<T>, key: T -> K, k: K): (r: seq<T>)
    ensures |r| <= |xs|
    ensures forall i :: 0 <= i < |r| ==> r[i] in xs && key(r[i]) == k
    ensures forall i :: 0 <= i < |xs| && key(xs[i]) == k ==> xs[i] in r
    decreases |xs|
  {
    if |xs| == 0 then []
    else WithKey(xs[..|xs| - 1], key, k) + (if key(xs[|xs| - 1]) == k then [xs[|xs| - 1]] else [])
  }

  /** The keys of `ks` with repeats removed, each at its first occurrence. */
  function FirstSeen<K(==)>(ks: seq<K>): (r: seq<K>)
    ensures forall i :: 0 <= i < |r| ==> r[i] in ks
    ensures forall i :: 0 <= i < |ks| ==> ks[i] in r
    ensures forall i, j :: 0 <= i < j < |r| ==> r[i] != r[j]
    decreases |ks|
  {
    if |ks| == 0 then []
    else
      var prefix := FirstSeen(ks[..|ks| - 1]);
      if ks[|ks| - 1] in prefix then prefix else prefix + [ks[|ks| - 1]]
  }

  function KeyList<K, T>(xs: seq<T>, key: T -> K): (r: seq<K>)
    ensures |r| == |xs|
    ensures forall i :: 0 <= i < |xs| ==> r[i] == key(xs[i])
  {
    seq(|xs|, i requires 0 <= i < |xs| => key(xs[i]))
  }

  function Keys<K, T>(gs: seq<Group<K, T>>): (r: seq<K>)
    ensures |r| == |gs|
    ensures forall i :: 0 <= i < |gs| ==> r[i] == gs[i].key
  {
    seq(|gs|, i requires 0 <= i < |gs| => gs[i].key)
  }

  ghost predicate DistinctKeys<K, T>(gs: seq<Group<K, T>>) {
    forall i, j :: 0 <= i < j < |gs| ==> gs[i].key != gs[j].key
  }

  /** `groups[k]` after the grouping, or the empty list when `k` was never seen. */
  function Lookup<K(==), T>(gs: seq<Group<K, T>>, k: K): seq<T>
    decreases |gs|
  {
    if |gs| == 0 then [] else if gs[0].key == k then gs[0].members else Lookup(gs[1..], k)
  }

  /** All members, group after group. */
  function Flatten<K, T>(gs: seq<Group<K, T>>): seq<T>
    decreases |gs|
  {
    if |gs| == 0 then [] else gs[0].members + Flatten(gs[1..])
  }

  /** Σ over the groups of Σ f over the group's members. */
  function GroupSum<K, T>(gs: seq<Group<K, T>>, f: T -> real): real
    decreases |gs|
  {
    if |gs| == 0 then 0.0 else Sum(gs[0].members, f) + GroupSum(gs[1..], f)
  }

  /** `groups[k].append(x)`: extend the group of `k`, or open a new one at the end. */
  function Add<K(==), T>(gs: seq<Group<K, T>>, k: K, x: T): seq<Group<K, T>>
    decreases |gs|
  {
    if |gs| == 0 then [Group(k, [x])]
    else if gs[0].key == k then [Group(k, gs[0].members + [x])] + gs[1..]
    else [gs[0]] + Add(gs[1..], k, x)
  }

  /** One pass over `xs`, appending each item to the group of its key. */
  function GroupBy<K(==), T>(xs: seq<T>, key: T -> K): seq<Group<K, T>>
    decreases |xs|
  {
    if |xs| == 0 then [] else Add(GroupBy(xs[..|xs| - 1], key), key(xs[|xs| - 1]), xs[|xs| - 1])
  }

  lemma {:induction false} AddKeys<K, T>(gs: seq<Group<K, T>>, k: K, x: T)
    ensures Keys(Add(gs, k, x)) == (if k in Keys(gs) then Keys(gs) else Keys(gs) + [k])
    decreases |gs|
  {
    var r := Add(gs, k, x);
    if |gs| == 0 {
      assert Keys(r) == [k];
    } else if gs[0].key == k {
      assert Keys(r) == Keys(gs);
      assert Keys(gs)[0] == k;
    } else {
      AddKeys(gs[1..], k, x);
      assert Keys(r) == [gs[0].key] + Keys(Add(gs[1..], k, x));
      assert Keys(gs) == [gs[0].key] + Keys(gs[1..]);
    }
  }

  lemma {:induction false} AddLookup<K, T>(gs: seq<Group<K, T>>, k: K, x: T, k': K)
    ensures Lookup(Add(gs, k, x), k') == Lookup(gs, k') + (if k' == k then [x] else [])
    decreases |gs|
  {
    if |gs| > 0 && gs[0].key != k {
      AddLookup(gs[1..], k, x, k');
    }
  }

  lemma {:induction false} AddFlatten<K, T>(gs: seq<Group<K, T>>, k: K, x: T)
    ensures multiset(Flatten(Add(gs, k, x))) == multiset(Flatten(gs)) + multiset{x}
    decreases |gs|
  {
    if |gs| > 0 && gs[0].key != k {
      AddFlatten(gs[1..], k, x);
    }
  }

  lemma {:induction false} AddNonEmpty<K, T>(gs: seq<Group<K, T>>, k: K, x: T)
    requires forall i :: 0 <= i < |gs| ==> |gs[i].members| > 0
    ensures forall i :: 0 <= i < |Add(gs, k, x)| ==> |Add(gs, k, x)[i].members| > 0
    decreases |gs|
  {
    if |gs| > 0 && gs[0].key != k {
      AddNonEmpty(gs[1..], k, x);
    }
  }

  lemma DistinctByKeys<K, T>(gs: seq<Group<K, T>>, ks: seq<K>)
    requires Keys(gs) == ks
    requires forall i, j :: 0 <= i < j < |ks| ==> ks[i] != ks[j]
    ensures DistinctKeys(gs)
  {
    assert forall i :: 0 <= i < |gs| ==> gs[i].key == ks[i];
  }

  /** In a grouping with distinct keys, looking a group's key up finds that group. */
  lemma {:induction false} LookupAt<K, T>(gs: seq<Group<K, T>>, i: nat)
    requires DistinctKeys(gs) && i < |gs|
    ensures Lookup(gs, gs[i].key) == gs[i].members
    decreases i
  {
    if i > 0 {
      LookupAt(gs[1..], i - 1);
    }
  }

  /** The groups come out keyed by the distinct keys, in first-seen order. */
  lemma {:induction false} GroupByKeys<K, T>(xs: seq<T>, key: T -> K)
    ensures Keys(GroupBy(xs, key)) == FirstSeen(KeyList(xs, key))
    ensures DistinctKeys(GroupBy(xs, key))
    decreases |xs|
  {
    if |xs| > 0 {
      var n := |xs| - 1;
      var k := key(xs[n]);
      GroupByKeys(xs[..n], key);
      var prev := FirstSeen(KeyList(xs[..n], key));
      assert Keys(GroupBy(xs, key)) == (if k in prev then prev else prev + [k]) by {
        AddKeys(GroupBy(xs[..n], key), k, xs[n]);
      }
      assert FirstSeen(KeyList(xs, key)) == (if k in prev then prev else prev + [k]) by {
        var ks := KeyList(xs, key);
        assert ks[..n] == KeyList(xs[..n], key);
        assert ks[n] == k;
      }
    }
    DistinctByKeys(GroupBy(xs, key), FirstSeen(KeyList(xs, key)));
  }

  /** `groups[k]` is exactly the reference slice of the items with key `k`. */
  lemma {:induction false} GroupByLookup<K, T>(xs: seq<T>, key: T -> K, k: K)
    ensures Lookup(GroupBy(xs, key), k) == WithKey(xs, key, k)
    decreases |xs|
  {
    if |xs| > 0 {
      var n := |xs| - 1;
      GroupByLookup(xs[..n], key, k);
      AddLookup(GroupBy(xs[..n], key), key(xs[n]), xs[n], k);
    }
  }

  lemma {:induction false} GroupByNonEmpty<K, T>(xs: seq<T>, key: T -> K)
    ensures forall i :: 0 <= i < |GroupBy(xs, key)| ==> |GroupBy(xs, key)[i].members| > 0
    decreases |xs|
  {
    if |xs| > 0 {
      var n := |xs| - 1;
      GroupByNonEmpty(xs[..n], key);
      AddNonEmpty(GroupBy(xs[..n], key), key(xs[n]), xs[n]);
    }
  }

  lemma {:induction false} GroupByMultiset<K, T>(xs: seq<T>, key: T -> K)
    ensures multiset(Flatten(GroupBy(xs, key))) == multiset(xs)
    decreases |xs|
  {
    if |xs| > 0 {
      var n := |xs| - 1;
      GroupByMultiset(xs[..n], key);
      AddFlatten(GroupBy(xs[..n], key), key(xs[n]), xs[n]);
      assert xs == xs[..n] + [xs[n]];
    }
  }

  /** GroupBy agrees with the reference partition: the groups are exactly the non-empty `WithKey`
      slices, keyed by the distinct keys in first-seen order, and together they hold every item once. */
  lemma GroupByIsPartition<K, T>(xs: seq<T>, key: T -> K)
    ensures var g := GroupBy(xs, key);
      && DistinctKeys(g)
      && Keys(g) == FirstSeen(KeyList(xs, key))
      && (forall i :: 0 <= i < |g| ==> g[i].members == WithKey(xs, key, g[i].key))
      && (forall i :: 0 <= i < |g| ==> |g[i].members| > 0)
      && multiset(Flatten(g)) == multiset(xs)
  {
    var g := GroupBy(xs, key);
    GroupByKeys(xs, key);
    forall i | 0 <= i < |g| ensures g[i].members == WithKey(xs, key, g[i].key) {
      LookupAt(g, i);
      GroupByLookup(xs, key, g[i].key);
    }
    GroupByNonEmpty(xs, key);
    GroupByMultiset(xs, key);
  }

  /** Summing group by group gives the same total as summing the flattened members. */
  lemma {:induction false} GroupSumFlatten<K, T>(gs: seq<Group<K, T>>, f: T -> real)
    ensures GroupSum(gs, f) == Sum(Flatten(gs), f)
    decreases |gs|
  {
    if |gs| > 0 {
      GroupSumFlatten(gs[1..], f);
      SumAppend(gs[0].members, Flatten(gs[1..]), f);
    }
  }

  /** Partition completeness for sums: the group totals of a GroupBy add up to the total over all items. */
  lemma GroupBySum<K, T>(xs: seq<T>, key: T -> K, f: T -> real)
    ensures GroupSum(GroupBy(xs, key), f) == Sum(xs, f)
  {
    GroupByIsPartition(xs, key);
    GroupSumFlatten(GroupBy(xs, key), f);
    SumPermutation(Flatten(GroupBy(xs, key)), xs, f);
  }

  /** Σ over the keys `ks` of the total of the items with that key. */
  function SumOverKeys<K(==), T>(ks: seq<K>, xs: seq<T>, key: T -> K, f: T -> real): real
    decreases |ks|
  {
    if |ks| == 0 then 0.0 else SumOverKeys(ks[..|ks| - 1], xs, key, f) + Sum(WithKey(xs, key, ks[|ks| - 1]), f)
  }

  /** One more item adds its term to the total of its own key, if that key is listed, and to
      no other. */
  lemma {:induction false} SumOverKeysStep<K, T>(ks: seq<K>, xs: seq<T>, x: T, key: T -> K, f: T -> real)
    requires forall i, j :: 0 <= i < j < |ks| ==> ks[i] != ks[j]
    ensures SumOverKeys(ks, xs + [x], key, f) == SumOverKeys(ks, xs, key, f) + (if key(x) in ks then f(x) else 0.0)
    decreases |ks|
  {
    if |ks| > 0 {
      var n := |ks| - 1;
      SumOverKeysStep(ks[..n], xs, x, key, f);
      var xs' := xs + [x];
      assert xs'[..|xs'| - 1] == xs;
      var w := WithKey(xs, key, ks[n]);
      assert WithKey(xs', key, ks[n]) == w + (if key(x) == ks[n] then [x] else []);
      if key(x) == ks[n] {
        SumAppend(w, [x], f);
        assert [x][..0] == [];
        assert Sum([x], f) == f(x);
      } else {
        assert w + [] == w;
      }
      assert Sum(WithKey(xs', key, ks[n]), f) == Sum(w, f) + (if key(x) == ks[n] then f(x) else 0.0);
      assert key(x) in ks <==> key(x) in ks[..n] || key(x) == ks[n];
      assert key(x) == ks[n] ==> key(x) !in ks[..n];
    }
  }

  /** Summing key by key over a list of distinct keys that covers every item gives the total
      over all items: the per-key slices partition the items. */
  lemma {:induction false} SumOverKeysAll<K, T>(ks: seq<K>, xs: seq<T>, key: T -> K, f: T -> real)
    requires forall i, j :: 0 <= i < j < |ks| ==> ks[i] != ks[j]
    requires forall i :: 0 <= i < |xs| ==> key(xs[i]) in ks
    ensures SumOverKeys(ks, xs, key, f) == Sum(xs, f)
    decreases |xs|
  {
    if |xs| == 0 {
      SumOverKeysEmpty(ks, xs, key, f);
    } else {
      var n := |xs| - 1;
      SumOverKeysAll(ks, xs[..n], key, f);
      assert xs == xs[..n] + [xs[n]];
      SumOverKeysStep(ks, xs[..n], xs[n], key, f);
    }
  }

  lemma {:induction false} SumOverKeysEmpty<K, T>(ks: seq<K>, xs: seq<T>, key: T -> K, f: T -> real)
    requires |xs| == 0
    ensures SumOverKeys(ks, xs, key, f) == 0.0
    decreases |ks|
  {
    if |ks| > 0 {
      SumOverKeysEmpty(ks[..|ks| - 1], xs, key, f);
    }
  }

  /** A result computed for one group, tagged with the group's key. */
  datatype Keyed<K, R> = Keyed(key: K, value: R)

  /** `[{key: k, ...: f(members)} for k, members in groups.items()]`. */
  function MapGroups<K, T, R>(gs: seq<Group<K, T>>, f: seq<T> -> R): (r: seq<Keyed<K, R>>)
    ensures |r| == |gs| && forall i :: 0 <= i < |gs| ==> r[i] == Keyed(gs[i].key, f(gs[i].members))
  {
    seq(|gs|, i requires 0 <= i < |gs| => Keyed(gs[i].key, f(gs[i].members)))
  }

  /** The per-group results of a GroupBy come keyed by the distinct keys in first-seen order, each
      computed from exactly the items with that key. */
  lemma MapGroupBy<K, T, R>(xs: seq<T>, key: T -> K, f: seq<T> -> R)
    ensures var r, ks := MapGroups(GroupBy(xs, key), f), FirstSeen(KeyList(xs, key));
      && |r| == |ks|
      && forall i :: 0 <= i < |r| ==> r[i].key == ks[i] && r[i].value == f(WithKey(xs, key, ks[i]))
  {
    GroupByIsPartition(xs, key);
  }

  /** Reordering per-group results `rs` into `r` loses no group: every result of `r` is the
      result of the non-empty group of the key it names. */
  lemma PermutedGroupResult<K, T, R>(xs: seq<T>, key: T -> K, f: (K, seq<T>) -> R, name: R -> K, rs: seq<R>, r: seq<R>, i: nat)
    requires |rs| == |GroupBy(xs, key)|
    requires forall j :: 0 <= j < |rs| ==> rs[j] == f(GroupBy(xs, key)[j].key, GroupBy(xs, key)[j].members)
    requires forall k, m :: name(f(k, m)) == k
    requires multiset(r) == multiset(rs) && i < |r|
    ensures r[i] == f(name(r[i]), WithKey(xs, key, name(r[i])))
    ensures |WithKey(xs, key, name(r[i]))| > 0
  {
    var gs := GroupBy(xs, key);
    assert r[i] in multiset(rs);
    var j :| 0 <= j < |rs| && rs[j] == r[i];
    assert gs[j].members == WithKey(xs, key, gs[j].key) && |gs[j].members| > 0 by {
      GroupByIsPartition(xs, key);
    }
  }

  /** Reordering per-group results `rs` into `r` loses no item: every item's key is named by
      some result of `r`. */
  lemma PermutedGroupOf<K, T, R>(xs: seq<T>, key: T -> K, f: (K, seq<T>) -> R, name: R -> K, rs: seq<R>, r: seq<R>, i: nat)
    requires |rs| == |GroupBy(xs, key)|
    requires forall j :: 0 <= j < |rs| ==> rs[j] == f(GroupBy(xs, key)[j].key, GroupBy(xs, key)[j].members)
    requires forall k, m :: name(f(k, m)) == k
    requires multiset(r) == multiset(rs) && i < |xs|
    ensures exists j :: 0 <= j < |r| && name(r[j]) == key(xs[i])
  {
    var gs := GroupBy(xs, key);
    GroupByKeys(xs, key);
    assert KeyList(xs, key)[i] in Keys(gs);
    var k :| 0 <= k < |gs| && Keys(gs)[k] == key(xs[i]);
    assert rs[k] in multiset(r);
    var j :| 0 <= j < |r| && r[j] == rs[k];
  }
}
