/** The cohort retention analysis of backend/services/kpi_calculator.py: the agents of a group are
    split by join year, and each cohort's producers of its base year are followed through the
    later statistics years. */
module KpiRetention {
  import opened Wrappers
  import opened Seqs
  import opened Grouping
  import opened Schemas
  import opened DataStore
  import opened KpiFields

  /** The `years_after_join` list of the response, independent of the data. */
  const YearsAfterJoin: seq<int> := [1, 2, 3, 4]

  /** One entry of a cohort's `years` list. */
  datatype YearRetention = YearRetention(year: int, yearsAfterJoin: int, count: nat, fyp: real,
                                         countRetention: real, fypRetention: real)

  /** One entry of `retention_data`. */
  datatype Cohort = Cohort(joinYear: int, baseYear: int, baseCount: nat, baseFyp: real, years: seq<YearRetention>)

  /** The cohort's base year: its join year when that is a statistics year or later, otherwise
      the first statistics year. */
  function BaseYear(joinYear: int): (b: int)
    ensures b >= joinYear && b >= Years[0]
    ensures b == joinYear || b == Years[0]
  {
    if joinYear >= Years[0] then joinYear else Years[0]
  }

  /** `n / d if d > 0 else 0` for a count `n` out of `d`. */
  function Share(n: nat, d: nat): (r: real)
    ensures d > 0 ==> r * d as real == n as real
    ensures d > 0 && n <= d ==> 0.0 <= r <= 1.0
    ensures d > 0 && n == d ==> r == 1.0
    ensures d == 0 ==> r == 0.0
  {
    var r := Ratio(n as real, d as real);
    assert d > 0 && n <= d ==> r <= 1.0 by {
      if d > 0 && n <= d {
        assert r * d as real <= 1.0 * d as real;
      }
    }
    r
  }

  /** An agent of the cohort produced both in the base year and in `year`. */
  function RetainedIn(baseYear: int, year: int): AgentRow -> bool {
    (a: AgentRow) => Amount(a.fyp, baseYear) > 0.0 && Amount(a.fyp, year) > 0.0
  }

  /** The FYP of `year` of an agent retained in it, 0 for the others. */
  function RetainedFypIn(baseYear: int, year: int): AgentRow -> real {
    (a: AgentRow) => if Amount(a.fyp, baseYear) > 0.0 && Amount(a.fyp, year) > 0.0 then Amount(a.fyp, year) else 0.0
  }

  /** The record of `year` for a cohort with base year `baseYear`: how many of the base year's
      producers still produce, their FYP, and both as shares of the base year's. */
  function YearRow(cohort: seq<AgentRow>, baseYear: int, year: int): (y: YearRetention)
    ensures y.year == year && y.yearsAfterJoin == year - baseYear
    ensures y.count <= Count(cohort, ActiveIn(baseYear)) && y.fyp >= 0.0
    ensures Count(cohort, ActiveIn(baseYear)) > 0 ==> 0.0 <= y.countRetention <= 1.0
  {
    var baseCount := Count(cohort, ActiveIn(baseYear));
    var baseFyp := Sum(cohort, ActiveFypIn(baseYear));
    var count := Count(cohort, RetainedIn(baseYear, year));
    var fyp := Sum(cohort, RetainedFypIn(baseYear, year));
    CountMonotone(cohort, RetainedIn(baseYear, year), ActiveIn(baseYear));
    SumNonNegative(cohort, RetainedFypIn(baseYear, year));
    YearRetention(year, year - baseYear, count, fyp, Share(count, baseCount), Ratio(fyp, baseFyp))
  }

  /** The base producers `base_active` of a cohort, as the list comprehension selects them. */
  function BaseActive(cohort: seq<AgentRow>, baseYear: int): seq<AgentRow> {
    Filter(cohort, ActiveIn(baseYear))
  }

  /** A record's count and FYP are those of the list of base producers still producing in its
      year, the nested comprehension of the source. */
  lemma YearRowAsListed(cohort: seq<AgentRow>, baseYear: int, year: int)
    ensures var y, current := YearRow(cohort, baseYear, year), Filter(BaseActive(cohort, baseYear), ActiveIn(year));
      y.count == |current| && y.fyp == Sum(current, FypIn(year))
  {
    var ba := BaseActive(cohort, baseYear);
    CountFilter(ba, ActiveIn(year));
    CountOfFilter(cohort, ActiveIn(baseYear), ActiveIn(year), RetainedIn(baseYear, year));
    SumFilter(ba, ActiveIn(year), FypIn(year), ActiveFypIn(year));
    SumFilter(cohort, ActiveIn(baseYear), ActiveFypIn(year), RetainedFypIn(baseYear, year));
  }

  /** A year counts nobody exactly when none of the base producers produced in it. */
  lemma YearRowEmpty(cohort: seq<AgentRow>, baseYear: int, year: int)
    ensures YearRow(cohort, baseYear, year).count == 0 <==>
      forall i :: 0 <= i < |cohort| ==> !(Amount(cohort[i].fyp, baseYear) > 0.0 && Amount(cohort[i].fyp, year) > 0.0)
  {
    CountZero(cohort, RetainedIn(baseYear, year));
  }

  /** The two retentions are the year's count and FYP as zero-safe shares of the base year's. */
  lemma YearRowShares(cohort: seq<AgentRow>, baseYear: int, year: int)
    ensures var y := YearRow(cohort, baseYear, year);
      && y.countRetention == Share(y.count, Count(cohort, ActiveIn(baseYear)))
      && y.fypRetention == Ratio(y.fyp, Sum(cohort, ActiveFypIn(baseYear)))
  {
  }

  /** The statistics years from the base year on: the loop's `years_after < 0` skip. */
  function YearsFrom(baseYear: int, years: seq<int>): (r: seq<int>)
    ensures |r| <= |years|
    decreases |years|
  {
    if |years| == 0 then []
    else (if years[0] - baseYear < 0 then [] else [years[0]]) + YearsFrom(baseYear, years[1..])
  }

  lemma {:induction false} YearsFromAll(baseYear: int, years: seq<int>)
    requires forall i :: 0 <= i < |years| ==> years[i] >= baseYear
    ensures YearsFrom(baseYear, years) == years
    decreases |years|
  {
    if |years| > 0 {
      YearsFromAll(baseYear, years[1..]);
    }
  }

  /** On a run of consecutive years containing the base year, the loop starts at the base year. */
  lemma {:induction false} YearsFromRun(baseYear: int, years: seq<int>)
    requires forall i :: 0 <= i < |years| ==> years[i] == years[0] + i
    requires |years| > 0 && years[0] <= baseYear < years[0] + |years|
    ensures YearsFrom(baseYear, years) == years[baseYear - years[0]..]
    decreases |years|
  {
    if years[0] < baseYear {
      var rest := years[1..];
      assert forall i :: 0 <= i < |rest| ==> rest[i] == rest[0] + i;
      YearsFromRun(baseYear, rest);
      assert rest[baseYear - rest[0]..] == years[baseYear - years[0]..];
    } else {
      YearsFromAll(baseYear, years);
    }
  }

  /** From a base year among the statistics years, the loop visits that year and every later one. */
  lemma YearsFromBase(baseYear: int)
    requires baseYear in Years
    ensures var r := YearsFrom(baseYear, Years);
      |r| == Years[|Years| - 1] - baseYear + 1 && forall k :: 0 <= k < |r| ==> r[k] == baseYear + k
  {
    assert forall i :: 0 <= i < |Years| ==> Years[i] == Years[0] + i;
    YearsFromRun(baseYear, Years);
  }

  /** The `years` list of a cohort. */
  function YearRows(cohort: seq<AgentRow>, baseYear: int): (rs: seq<YearRetention>)
    ensures |rs| == |YearsFrom(baseYear, Years)|
    ensures forall k :: 0 <= k < |rs| ==> rs[k] == YearRow(cohort, baseYear, YearsFrom(baseYear, Years)[k])
  {
    var ys := YearsFrom(baseYear, Years);
    seq(|ys|, k requires 0 <= k < |ys| => YearRow(cohort, baseYear, ys[k]))
  }

  /** The cohort of `joinYear`, or None when nobody in it produced in the base year. */
  function CohortOf(joinYear: int, cohort: seq<AgentRow>): (c: Option<Cohort>)
    ensures c.Some? <==> exists i :: 0 <= i < |cohort| && Amount(cohort[i].fyp, BaseYear(joinYear)) > 0.0
    ensures c.Some? ==> c.value.joinYear == joinYear && c.value.baseYear == BaseYear(joinYear)
    ensures c.Some? ==> 0 < c.value.baseCount <= |cohort|
  {
    var base := BaseYear(joinYear);
    var baseCount := Count(cohort, ActiveIn(base));
    CountZero(cohort, ActiveIn(base));
    if baseCount == 0 then None
    else Some(Cohort(joinYear, base, baseCount, Sum(cohort, ActiveFypIn(base)), YearRows(cohort, base)))
  }

  /** The base figures are those of the `base_active` list. */
  lemma CohortAsListed(joinYear: int, cohort: seq<AgentRow>)
    requires CohortOf(joinYear, cohort).Some?
    ensures var c, ba := CohortOf(joinYear, cohort).value, BaseActive(cohort, BaseYear(joinYear));
      c.baseCount == |ba| && c.baseFyp == Sum(ba, FypIn(c.baseYear)) && c.baseFyp > 0.0
  {
    var base := BaseYear(joinYear);
    var ba := BaseActive(cohort, base);
    CountFilter(cohort, ActiveIn(base));
    SumFilter(cohort, ActiveIn(base), FypIn(base), ActiveFypIn(base));
    SumPositive(ba, FypIn(base));
  }

  /** A cohort whose base year is past the last statistics year never produces there, so it is
      never reported. */
  lemma LateCohortDropped(joinYear: int, cohort: seq<AgentRow>)
    requires joinYear > Years[|Years| - 1]
    ensures CohortOf(joinYear, cohort) == None
  {
  }

  /** A reported cohort's base year is a statistics year: outside them every FYP reads as 0. */
  lemma ReportedBaseYear(joinYear: int, cohort: seq<AgentRow>)
    requires CohortOf(joinYear, cohort).Some?
    ensures BaseYear(joinYear) in Years
  {
    var i :| 0 <= i < |cohort| && Amount(cohort[i].fyp, BaseYear(joinYear)) > 0.0;
  }

  /** The timeline of a reported cohort: one record per statistics year from the base year
      through 2025, in order, counting years from the base year. */
  lemma CohortTimeline(joinYear: int, cohort: seq<AgentRow>)
    requires CohortOf(joinYear, cohort).Some?
    ensures var c := CohortOf(joinYear, cohort).value;
      && Years[0] <= c.baseYear <= Years[|Years| - 1]
      && |c.years| == Years[|Years| - 1] - c.baseYear + 1
      && forall k :: 0 <= k < |c.years| ==> c.years[k] == YearRow(cohort, c.baseYear, c.baseYear + k)
  {
    ReportedBaseYear(joinYear, cohort);
    YearsFromBase(BaseYear(joinYear));
  }

  /** The base-year record repeats the base figures: every base producer is counted and both
      retentions are 1. */
  lemma BaseYearRecord(joinYear: int, cohort: seq<AgentRow>)
    requires CohortOf(joinYear, cohort).Some?
    ensures var c := CohortOf(joinYear, cohort).value;
      && c.years[0].year == c.baseYear && c.years[0].yearsAfterJoin == 0
      && c.years[0].count == c.baseCount && c.years[0].fyp == c.baseFyp
      && c.years[0].countRetention == 1.0 && c.years[0].fypRetention == 1.0
  {
    var c := CohortOf(joinYear, cohort).value;
    var b := c.baseYear;
    CohortTimeline(joinYear, cohort);
    CohortAsListed(joinYear, cohort);
    CountCongruent(cohort, RetainedIn(b, b), ActiveIn(b));
    SumCongruent(cohort, RetainedFypIn(b, b), ActiveFypIn(b));
    YearRowShares(cohort, b, b);
  }

  /** Every record counts a subset of the base producers: the retained count never exceeds the
      base count, and the retentions are the record's figures as shares of the base figures
      (`Share` and `Ratio` state the product identities). */
  lemma RetentionBounded(joinYear: int, cohort: seq<AgentRow>, k: nat)
    requires CohortOf(joinYear, cohort).Some? && k < |CohortOf(joinYear, cohort).value.years|
    ensures var c := CohortOf(joinYear, cohort).value;
      && c.years[k].count <= c.baseCount
      && 0.0 <= c.years[k].countRetention <= 1.0
      && c.years[k].countRetention == Share(c.years[k].count, c.baseCount)
      && c.years[k].fypRetention == Ratio(c.years[k].fyp, c.baseFyp)
  {
    var c := CohortOf(joinYear, cohort).value;
    CohortTimeline(joinYear, cohort);
    CohortAsListed(joinYear, cohort);
    YearRowShares(cohort, c.baseYear, c.baseYear + k);
  }

  /** `if join_year:`: agents without a join year, or with 0, belong to no cohort. */
  predicate HasJoinYear(a: AgentRow) {
    a.joinYear.Some? && a.joinYear.value != 0
  }

  const Joined: AgentRow -> bool := (a: AgentRow) => HasJoinYear(a)
  const JoinYearKey: AgentRow -> int := (a: AgentRow) => a.joinYear.GetOr(0)

  /** The candidate result `f(key, members)` of every group. */
  function Candidates<K, T, C>(gs: seq<Group<K, T>>, f: (K, seq<T>) -> Option<C>): (os: seq<Option<C>>)
    ensures |os| == |gs| && forall j :: 0 <= j < |gs| ==> os[j] == f(gs[j].key, gs[j].members)
  {
    seq(|gs|, j requires 0 <= j < |gs| => f(gs[j].key, gs[j].members))
  }

  /** Grouping, then keeping the present results: every kept result is that of some item's
      whole group. */
  lemma PresentOfGroupsSound<K, T, C>(xs: seq<T>, key: T -> K, f: (K, seq<T>) -> Option<C>, i: nat)
    requires i < |Present(Candidates(GroupBy(xs, key), f))|
    ensures exists m :: 0 <= m < |xs| && f(key(xs[m]), WithKey(xs, key, key(xs[m]))) == Some(Present(Candidates(GroupBy(xs, key), f))[i])
  {
    var gs := GroupBy(xs, key);
    var os := Candidates(gs, f);
    var j :| 0 <= j < |os| && os[j] == Some(Present(os)[i]);
    assert gs[j].members == WithKey(xs, key, gs[j].key) && |gs[j].members| > 0 by {
      GroupByIsPartition(xs, key);
    }
    assert gs[j].members[0] in xs;
    var m :| 0 <= m < |xs| && xs[m] == gs[j].members[0];
    assert key(xs[m]) == gs[j].key;
  }

  /** Grouping, then keeping the present results: an item whose group has a result sees it kept. */
  lemma PresentOfGroupsComplete<K, T, C>(xs: seq<T>, key: T -> K, f: (K, seq<T>) -> Option<C>, m: nat)
    requires m < |xs| && f(key(xs[m]), WithKey(xs, key, key(xs[m]))).Some?
    ensures f(key(xs[m]), WithKey(xs, key, key(xs[m]))).value in Present(Candidates(GroupBy(xs, key), f))
  {
    var gs := GroupBy(xs, key);
    var os := Candidates(gs, f);
    var k := key(xs[m]);
    assert exists j :: 0 <= j < |gs| && gs[j].key == k && gs[j].members == WithKey(xs, key, k) by {
      GroupByIsPartition(xs, key);
      assert KeyList(xs, key)[m] == k;
      var j :| 0 <= j < |gs| && Keys(gs)[j] == k;
    }
    var j :| 0 <= j < |gs| && gs[j].key == k && gs[j].members == WithKey(xs, key, k);
    assert os[j] == f(k, WithKey(xs, key, k));
  }

  const CohortFn: (int, seq<AgentRow>) -> Option<Cohort> := (k: int, m: seq<AgentRow>) => CohortOf(k, m)

  /** `_calculate_group_retention(agents)`: the agents with a join year grouped by it, and the
      cohorts with a base-year producer kept in first-seen order. */
  function GroupRetention(agents: seq<AgentRow>): seq<Cohort> {
    Present(Candidates(GroupBy(Filter(agents, Joined), JoinYearKey), CohortFn))
  }

  /** Each reported cohort is computed from all agents of its join year, and that year is not 0. */
  lemma GroupRetentionSound(agents: seq<AgentRow>)
    ensures var r, joined := GroupRetention(agents), Filter(agents, Joined);
      forall i :: 0 <= i < |r| ==>
        && r[i].joinYear != 0
        && CohortOf(r[i].joinYear, WithKey(joined, JoinYearKey, r[i].joinYear)) == Some(r[i])
  {
    var joined := Filter(agents, Joined);
    var r := GroupRetention(agents);
    forall i | 0 <= i < |r|
      ensures r[i].joinYear != 0 && CohortOf(r[i].joinYear, WithKey(joined, JoinYearKey, r[i].joinYear)) == Some(r[i])
    {
      PresentOfGroupsSound(joined, JoinYearKey, CohortFn, i);
      var m :| 0 <= m < |joined| && CohortFn(JoinYearKey(joined[m]), WithKey(joined, JoinYearKey, JoinYearKey(joined[m]))) == Some(r[i]);
      assert Joined(joined[m]);
    }
  }

  /** Every join year whose agents include a base-year producer is reported. */
  lemma GroupRetentionComplete(agents: seq<AgentRow>, i: nat)
    requires i < |agents| && HasJoinYear(agents[i])
    requires var y := agents[i].joinYear.value; CohortOf(y, WithKey(Filter(agents, Joined), JoinYearKey, y)).Some?
    ensures exists k :: 0 <= k < |GroupRetention(agents)| && GroupRetention(agents)[k].joinYear == agents[i].joinYear.value
  {
    var y := agents[i].joinYear.value;
    var joined := Filter(agents, Joined);
    var r := GroupRetention(agents);
    assert agents[i] in joined;
    var m :| 0 <= m < |joined| && joined[m] == agents[i];
    assert JoinYearKey(joined[m]) == y;
    PresentOfGroupsComplete(joined, JoinYearKey, CohortFn, m);
    var c := CohortOf(y, WithKey(joined, JoinYearKey, y)).value;
    assert c in r;
  }

  /** Skipping absent values keeps values whose images were pairwise distinct pairwise distinct. */
  lemma {:induction false} PresentDistinct<T, K>(os: seq<Option<T>>, f: T -> K)
    requires forall i, j :: 0 <= i < j < |os| && os[i].Some? && os[j].Some? ==> f(os[i].value) != f(os[j].value)
    ensures forall i, j :: 0 <= i < j < |Present(os)| ==> f(Present(os)[i]) != f(Present(os)[j])
    decreases |os|
  {
    if |os| > 0 {
      var rest := Present(os[1..]);
      PresentDistinct(os[1..], f);
      if os[0].Some? {
        forall i | 0 <= i < |rest| ensures f(rest[i]) != f(os[0].value) {
          var j :| 0 <= j < |os[1..]| && os[1..][j] == Some(rest[i]);
          assert os[j + 1] == Some(rest[i]);
        }
      }
    }
  }

  const CohortYear: Cohort -> int := (c: Cohort) => c.joinYear

  /** The reported cohorts have distinct join years. */
  lemma GroupRetentionDistinct(agents: seq<AgentRow>)
    ensures var r := GroupRetention(agents);
      forall i, j :: 0 <= i < j < |r| ==> r[i].joinYear != r[j].joinYear
  {
    var gs := GroupBy(Filter(agents, Joined), JoinYearKey);
    GroupByIsPartition(Filter(agents, Joined), JoinYearKey);
    PresentDistinct(Candidates(gs, CohortFn), CohortYear);
  }

  const GroupRetentionFn: seq<AgentRow> -> seq<Cohort> := (m: seq<AgentRow>) => GroupRetention(m)

  /** The response: no groups for no agents; otherwise one `{group_name, retention}` entry per
      group and the fixed `years_after_join` list. */
  datatype RetentionResult = NoRetention | Retention(groups: seq<Keyed<string, seq<Cohort>>>, yearsAfterJoin: seq<int>)

  /** `calculate_retention_analysis(filters, group_by)`: the agents selected at the default year,
      grouped under the falsy-to-`未知` key, each group's cohorts computed separately. */
  function RetentionAnalysis(t: seq<AgentRow>, filters: map<string, Value>, groupBy: string, floatText: FloatText)
    : (r: RetentionResult)
    requires SortedById(t)
    ensures r.NoRetention? <==> forall i :: 0 <= i < |t| ==> !Selects(t[i], filters, DefaultYear)
    ensures r.Retention? ==> r.yearsAfterJoin == YearsAfterJoin
  {
    var rows := GetAgents(t, filters, DefaultYear).value;
    if |rows| == 0 then NoRetention
    else
      assert rows[0] in t;
      Retention(MapGroups(GroupBy(rows, RowKeyOf(groupBy, floatText)), GroupRetentionFn), YearsAfterJoin)
  }

  /** The groups of a retention analysis are the distinct keys of the selected agents in
      first-seen order, and each group's cohorts are computed from exactly its own agents. */
  lemma RetentionGroups(t: seq<AgentRow>, filters: map<string, Value>, groupBy: string, floatText: FloatText)
    requires SortedById(t)
    requires RetentionAnalysis(t, filters, groupBy, floatText).Retention?
    ensures var r, rows, key := RetentionAnalysis(t, filters, groupBy, floatText), GetAgents(t, filters, DefaultYear).value, RowKeyOf(groupBy, floatText);
      && |r.groups| == |FirstSeen(KeyList(rows, key))|
      && forall i :: 0 <= i < |r.groups| ==>
           r.groups[i].key == FirstSeen(KeyList(rows, key))[i]
           && r.groups[i].value == GroupRetention(WithKey(rows, key, r.groups[i].key))
  {
    var rows, key := GetAgents(t, filters, DefaultYear).value, RowKeyOf(groupBy, floatText);
    RetentionAnalysisGroups(t, filters, groupBy, floatText);
    MapGroupBy(rows, key, GroupRetentionFn);
  }

  /** The groups of a retention analysis, as the per-group map over the selected agents. */
  lemma RetentionAnalysisGroups(t: seq<AgentRow>, filters: map<string, Value>, groupBy: string, floatText: FloatText)
    requires SortedById(t)
    requires RetentionAnalysis(t, filters, groupBy, floatText).Retention?
    ensures RetentionAnalysis(t, filters, groupBy, floatText).groups
      == MapGroups(GroupBy(GetAgents(t, filters, DefaultYear).value, RowKeyOf(groupBy, floatText)), GroupRetentionFn)
  {
  }
}
