/** `list.sort(key=..., reverse=True)` on a real-valued key: a stable sort, highest key first,
    as an insertion sort whose result is checked for order, contents and stability. */
module StableSort {

  predicate Descending<T>(s: seq<T>, key: T -> real) {
    forall i, j :: 0 <= i < j < |s| ==> key(s[i]) >= key(s[j])
  }

  /** The entries whose key is `v`, in their order. */
  function Ties<T>(s: seq<T>, key: T -> real, v: real): seq<T>
    decreases |s|
  {
    if |s| == 0 then [] else (if key(s[0]) == v then [s[0]] else []) + Ties(s[1..], key, v)
  }

  lemma {:induction false} TiesAppend<T>(s: seq<T>, t: seq<T>, key: T -> real, v: real)
    ensures Ties(s + t, key, v) == Ties(s, key, v) + Ties(t, key, v)
    decreases |s|
  {
    if |s| > 0 {
      assert (s + t)[1..] == s[1..] + t;
      TiesAppend(s[1..], t, key, v);
    } else {
      assert s + t == t;
    }
  }

  lemma {:induction false} TiesNone<T>(s: seq<T>, key: T -> real, v: real)
    requires forall i :: 0 <= i < |s| ==> key(s[i]) < v
    ensures Ties(s, key, v) == []
    decreases |s|
  {
    if |s| > 0 {
      TiesNone(s[1..], key, v);
    }
  }

  /** Insert `x` after every entry whose key is at least its own. */
  function Insert<T>(s: seq<T>, x: T, key: T -> real): (r: seq<T>)
    ensures multiset(r) == multiset(s) + multiset{x}
    decreases |s|
  {
    if |s| == 0 then [x]
    else if key(s[0]) >= key(x) then
      assert s == [s[0]] + s[1..];
      [s[0]] + Insert(s[1..], x, key)
    else
      [x] + s
  }

  /** Inserting into a descending list keeps it descending. */
  lemma {:induction false} InsertDescending<T>(s: seq<T>, x: T, key: T -> real)
    requires Descending(s, key)
    ensures Descending(Insert(s, x, key), key)
    decreases |s|
  {
    if |s| > 0 && key(s[0]) >= key(x) {
      var tail := Insert(s[1..], x, key);
      InsertDescending(s[1..], x, key);
      forall y | y in tail ensures key(y) <= key(s[0]) {
        assert y in multiset(s[1..]) + multiset{x};
      }
    }
  }

  /** The sort, highest key first, each entry inserted after all earlier ones of equal key. */
  function Sort<T>(xs: seq<T>, key: T -> real): (r: seq<T>)
    ensures Descending(r, key)
    ensures multiset(r) == multiset(xs)
    decreases |xs|
  {
    if |xs| == 0 then []
    else
      var n := |xs| - 1;
      assert xs == xs[..n] + [xs[n]];
      InsertDescending(Sort(xs[..n], key), xs[n], key);
      Insert(Sort(xs[..n], key), xs[n], key)
  }

  lemma DescendingTail<T>(s: seq<T>, key: T -> real)
    requires |s| > 0 && Descending(s, key)
    ensures Descending(s[1..], key)
    ensures forall i :: 0 <= i < |s| ==> key(s[i]) <= key(s[0])
  {
    var rest := s[1..];
    forall i, j | 0 <= i < j < |rest| ensures key(rest[i]) >= key(rest[j]) {
      assert rest[i] == s[i + 1] && rest[j] == s[j + 1];
    }
  }

  /** `x` goes in front of a list whose keys are all below its own. */
  lemma InsertInFront<T>(s: seq<T>, x: T, key: T -> real, v: real)
    requires |s| > 0 && Descending(s, key) && key(s[0]) < key(x)
    ensures Ties(Insert(s, x, key), key, v) == Ties(s, key, v) + Ties([x], key, v)
  {
    assert Insert(s, x, key) == [x] + s;
    TiesAppend([x], s, key, v);
    DescendingTail(s, key);
    if key(x) == v {
      TiesNone(s, key, v);
    } else {
      assert Ties([x], key, v) == [];
    }
  }

  /** Inserting keeps the entries of each key in their order and puts `x` last among its equals. */
  lemma {:induction false} InsertStable<T>(s: seq<T>, x: T, key: T -> real, v: real)
    requires Descending(s, key)
    ensures Ties(Insert(s, x, key), key, v) == Ties(s, key, v) + Ties([x], key, v)
    decreases |s|
  {
    if |s| == 0 {
      assert Ties([x], key, v) == Ties([x], key, v) + [];
    } else if key(s[0]) >= key(x) {
      DescendingTail(s, key);
      var rest, inserted := s[1..], Insert(s[1..], x, key);
      var h := if key(s[0]) == v then [s[0]] else [];
      assert ([s[0]] + inserted)[1..] == inserted;
      assert Ties(Insert(s, x, key), key, v) == h + Ties(inserted, key, v);
      InsertStable(rest, x, key, v);
      assert h + (Ties(rest, key, v) + Ties([x], key, v)) == (h + Ties(rest, key, v)) + Ties([x], key, v);
    } else {
      InsertInFront(s, x, key, v);
    }
  }

  /** The sort is stable: the entries of any one key come out in their input order. */
  lemma {:induction false} SortStable<T>(xs: seq<T>, key: T -> real, v: real)
    ensures Ties(Sort(xs, key), key, v) == Ties(xs, key, v)
    decreases |xs|
  {
    if |xs| > 0 {
      var n := |xs| - 1;
      SortStable(xs[..n], key, v);
      assert Sort(xs, key) == Insert(Sort(xs[..n], key), xs[n], key);
      InsertStable(Sort(xs[..n], key), xs[n], key, v);
      assert xs == xs[..n] + [xs[n]];
      TiesAppend(xs[..n], [xs[n]], key, v);
    }
  }
}
