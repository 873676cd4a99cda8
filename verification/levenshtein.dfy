/** Edit distance as `_levenshtein_distance` computes it: a row-by-row dynamic programme,
    checked against the recursive definition on prefixes. */
module Levenshtein {

  function Min3(a: nat, b: nat, c: nat): (m: nat)
    ensures m <= a && m <= b && m <= c
    ensures m == a || m == b || m == c
  {
    if a <= b && a <= c then a else if b <= c then b else c
  }

  function Max(a: nat, b: nat): nat {
    if a >= b then a else b
  }

  /** The fewest single-character insertions, deletions and substitutions turning `a` into `b`,
      by recursion on the last characters. */
  function Dist(a: string, b: string): nat
    decreases |a| + |b|
  {
    if |a| == 0 then |b|
    else if |b| == 0 then |a|
    else
      Min3(Dist(a[..|a| - 1], b) + 1,
           Dist(a, b[..|b| - 1]) + 1,
           Dist(a[..|a| - 1], b[..|b| - 1]) + (if a[|a| - 1] == b[|b| - 1] then 0 else 1))
  }

  /** The distance does not depend on the order of the arguments. */
  lemma {:induction false} DistSymmetric(a: string, b: string)
    ensures Dist(a, b) == Dist(b, a)
    decreases |a| + |b|
  {
    if |a| > 0 && |b| > 0 {
      DistSymmetric(a[..|a| - 1], b);
      DistSymmetric(a, b[..|b| - 1]);
      DistSymmetric(a[..|a| - 1], b[..|b| - 1]);
    }
  }

  /** A string is at distance 0 from itself. */
  lemma {:induction false} DistSelf(s: string)
    ensures Dist(s, s) == 0
    decreases |s|
  {
    if |s| > 0 {
      DistSelf(s[..|s| - 1]);
    }
  }

  /** Distance 0 only between equal strings. */
  lemma {:induction false} DistZero(a: string, b: string)
    requires Dist(a, b) == 0
    ensures a == b
    decreases |a| + |b|
  {
    if |a| > 0 && |b| > 0 {
      DistZero(a[..|a| - 1], b[..|b| - 1]);
      assert a == a[..|a| - 1] + [a[|a| - 1]];
      assert b == b[..|b| - 1] + [b[|b| - 1]];
    }
  }

  /** The distance lies between the difference and the maximum of the lengths. */
  lemma {:induction false} DistBounds(a: string, b: string)
    ensures Dist(a, b) <= Max(|a|, |b|)
    ensures Dist(a, b) >= |a| - |b| && Dist(a, b) >= |b| - |a|
    decreases |a| + |b|
  {
    if |a| > 0 && |b| > 0 {
      DistBounds(a[..|a| - 1], b);
      DistBounds(a, b[..|b| - 1]);
      DistBounds(a[..|a| - 1], b[..|b| - 1]);
    }
  }

  /** One step of the recurrence, for a first string `a + [c]` and a prefix `b[..j + 1]`. */
  lemma DistStep(a: string, c: char, b: string, j: nat)
    requires j < |b|
    ensures Dist(a + [c], b[..j + 1]) ==
      Min3(Dist(a, b[..j + 1]) + 1, Dist(a + [c], b[..j]) + 1, Dist(a, b[..j]) + (if c != b[j] then 1 else 0))
  {
    var a' := a + [c];
    assert a'[..|a'| - 1] == a;
    assert b[..j + 1][..j] == b[..j];
  }

  /** The DP row for `a + [c]`, built from the row for `a`. */
  method NextRow(a: string, c: char, b: string, prev: seq<nat>) returns (cur: seq<nat>)
    requires |prev| == |b| + 1
    requires forall j :: 0 <= j <= |b| ==> prev[j] == Dist(a, b[..j])
    ensures |cur| == |b| + 1
    ensures forall j :: 0 <= j <= |b| ==> cur[j] == Dist(a + [c], b[..j])
  {
    cur := [|a| + 1];
    var j := 0;
    while j < |b|
      invariant 0 <= j <= |b|
      invariant |cur| == j + 1
      invariant forall k :: 0 <= k <= j ==> cur[k] == Dist(a + [c], b[..k])
    {
      var insertions := prev[j + 1] + 1;
      var deletions := cur[j] + 1;
      var substitutions := prev[j] + (if c != b[j] then 1 else 0);
      var d := Min3(insertions, deletions, substitutions);
      assert d == Dist(a + [c], b[..j + 1]) by {
        DistStep(a, c, b, j);
      }
      cur := cur + [d];
      j := j + 1;
    }
  }

  /** `_levenshtein_distance(s1, s2)`: swap so the longer string comes first, then fill one DP row
      per character of `s1`; `prev[j]` is the distance from the current prefix of `s1` to `s2[..j]`. */
  method LevenshteinDistance(s1: string, s2: string) returns (d: nat)
    ensures d == Dist(s1, s2)
    decreases if |s1| < |s2| then 1 else 0
  {
    if |s1| < |s2| {
      d := LevenshteinDistance(s2, s1);
      DistSymmetric(s2, s1);
      return;
    }
    if |s2| == 0 {
      return |s1|;
    }
    var prev: seq<nat> := seq(|s2| + 1, j requires 0 <= j <= |s2| => j);
    var i := 0;
    while i < |s1|
      invariant 0 <= i <= |s1|
      invariant |prev| == |s2| + 1
      invariant forall j :: 0 <= j <= |s2| ==> prev[j] == Dist(s1[..i], s2[..j])
    {
      prev := NextRow(s1[..i], s1[i], s2, prev);
      assert s1[..i] + [s1[i]] == s1[..i + 1];
      i := i + 1;
    }
    assert s1[..|s1|] == s1 && s2[..|s2|] == s2;
    d := prev[|s2|];
  }
}
