/** Efficiency trend of backend/services/kpi_calculator.py: per group and statistics year, the
    number of producing agents, their average of a metric and the change against the last
    producing year before it. */
module KpiEfficiency {
  import opened Wrappers
  import opened Seqs
  import opened Grouping
  import opened Schemas
  import opened DataStore
  import opened KpiFields
  import opened KpiMargin

  /** The averaged quantity. */
  datatype Metric = AvgFyp | AvgApe | AvgFyc | AvgMargin

  /** The `metric` argument: the four names it knows, and FYP for every other name. */
  function MetricOf(name: string): (m: Metric)
    ensures m == AvgApe <==> name == "avg_ape"
    ensures m == AvgFyc <==> name == "avg_fyc"
    ensures m == AvgMargin <==> name == "avg_margin"
    ensures m == AvgFyp <==> name !in {"avg_ape", "avg_fyc", "avg_margin"}
  {
    if name == "avg_ape" then AvgApe
    else if name == "avg_fyc" then AvgFyc
    else if name == "avg_margin" then AvgMargin
    else AvgFyp
  }

  /** The column family a per-column metric sums. */
  function Column(m: Metric, a: AgentRow): ByYear<real> {
    match m
    case AvgApe => a.ape
    case AvgFyc => a.fyc
    case _ => a.fyp
  }

  /** A row's metric column of `year`, as a summand. */
  function AmountIn(m: Metric, year: int): AgentRow -> real {
    (a: AgentRow) => Amount(Column(m, a), year)
  }

  /** A row's metric column of `year` when it produced in that year, otherwise 0. */
  function ActiveAmountIn(m: Metric, year: int): AgentRow -> real {
    (a: AgentRow) => if Amount(a.fyp, year) > 0.0 then Amount(Column(m, a), year) else 0.0
  }

  // ---------------------------------------------------------------- _calculate_total_margin

  /** `_calculate_total_margin(agents, year)`: the margins of `rows`, with the points and
      social-security summaries fetched for their ids; it is the total margin the margin analysis
      reports for the same agents. */
  function TotalMargin(rows: seq<AgentRow>, store: Store, year: int): (t: real)
    ensures t == GroupStats(EnrichAll(rows, store, year), year).totalMargin
  {
    Sum(EnrichAll(rows, store, year), MarginTerm)
  }

  /** The total margin is the agents' FYC minus their income, net points and employer social
      security of the year. */
  lemma TotalMarginDecomposes(rows: seq<AgentRow>, store: Store, year: int)
    ensures var es := EnrichAll(rows, store, year);
      TotalMargin(rows, store, year)
        == Sum(es, Fyc(year)) - Sum(es, Income(year)) - Sum(es, PointsTerm) - Sum(es, SocialSecurityTerm)
  {
    GroupStatsMarginIdentity(EnrichAll(rows, store, year), year);
  }

  // ---------------------------------------------------------------- one year of a trend

  /** `total` of one year: the metric summed over the year's producers of the group. */
  function Total(m: Metric, group: seq<AgentRow>, store: Store, year: int): real {
    if m == AvgMargin then TotalMargin(Filter(group, ActiveIn(year)), store, year)
    else Sum(group, ActiveAmountIn(m, year))
  }

  /** The total is taken over the year's producers, `active_agents`, exactly. */
  lemma TotalAsListed(m: Metric, group: seq<AgentRow>, store: Store, year: int)
    ensures m != AvgMargin ==> Total(m, group, store, year) == Sum(Filter(group, ActiveIn(year)), AmountIn(m, year))
    ensures m == AvgMargin ==> Total(m, group, store, year) == TotalMargin(Filter(group, ActiveIn(year)), store, year)
  {
    if m != AvgMargin {
      SumFilter(group, ActiveIn(year), AmountIn(m, year), ActiveAmountIn(m, year));
    }
  }

  /** One `{year, count, value, yoy_change}` entry. */
  datatype TrendPoint = TrendPoint(year: int, count: nat, value: real, yoyChange: Option<real>)

  /** An entry's change against the previous average `prev`: present exactly when the entry
      produced and `prev` exists and is positive, and then `(value - prev) / prev`. */
  predicate ChangeAgainst(p: TrendPoint, prev: Option<real>) {
    && (p.yoyChange.Some? <==> p.count > 0 && prev.Some? && prev.value > 0.0)
    && (p.yoyChange.Some? ==> p.yoyChange.value * prev.value == p.value - prev.value)
  }

  /** `total / count` of a producing year. */
  function Average(total: real, count: nat): (v: real)
    requires count > 0
    ensures v * count as real == total
  {
    Ratio(total, count as real)
  }

  /** `(avg_value - prev_value) / prev_value` when `prev_value` is truthy and positive. */
  function Change(value: real, prev: Option<real>): (c: Option<real>)
    ensures c.Some? <==> prev.Some? && prev.value > 0.0
    ensures c.Some? ==> c.value * prev.value == value - prev.value
  {
    if prev.Some? && prev.value > 0.0 then Some(Ratio(value - prev.value, prev.value)) else None
  }

  /** The entry of `year` given `prev_value`, the average of the last producing year before it:
      a year without producers reports zeros and no change; otherwise the average, and the
      relative change when the previous average exists and is positive. */
  function Point(group: seq<AgentRow>, m: Metric, store: Store, year: int, prev: Option<real>): (p: TrendPoint)
    ensures p.year == year && p.count == Count(group, ActiveIn(year))
    ensures p.count == 0 ==> p.value == 0.0 && p.yoyChange == None
    ensures p.count > 0 ==> p.value == Average(Total(m, group, store, year), p.count)
    ensures ChangeAgainst(p, prev)
  {
    var count := Count(group, ActiveIn(year));
    if count == 0 then TrendPoint(year, 0, 0.0, None)
    else
      var value := Average(Total(m, group, store, year), count);
      TrendPoint(year, count, value, Change(value, prev))
  }

  /** A producing year's count is the number of the group's producers of that year. */
  lemma PointCount(group: seq<AgentRow>, m: Metric, store: Store, year: int, prev: Option<real>)
    ensures Point(group, m, store, year, prev).count == |Filter(group, ActiveIn(year))|
    ensures Point(group, m, store, year, prev).count == 0 <==> forall i :: 0 <= i < |group| ==> Amount(group[i].fyp, year) <= 0.0
  {
    CountFilter(group, ActiveIn(year));
    CountZero(group, ActiveIn(year));
  }

  // ---------------------------------------------------------------- the year loop

  /** The average of the last producing entry of `ps`, or `prev` when none produced. */
  function LastValue(ps: seq<TrendPoint>, prev: Option<real>): Option<real>
    decreases |ps|
  {
    if |ps| == 0 then prev
    else if ps[|ps| - 1].count > 0 then Some(ps[|ps| - 1].value)
    else LastValue(ps[..|ps| - 1], prev)
  }

  /** The entry of a year given the previous average. */
  type Step = (int, Option<real>) -> TrendPoint

  /** The loop over `years`, `prev_value` starting at `prev` and moving on at every producing
      year only. */
  function TrendFrom(step: Step, years: seq<int>, prev: Option<real>): (ps: seq<TrendPoint>)
    ensures |ps| == |years|
    ensures |ps| > 0 ==> ps[0] == step(years[0], prev)
    decreases |years|
  {
    if |years| == 0 then []
    else
      var p := step(years[0], prev);
      [p] + TrendFrom(step, years[1..], if p.count > 0 then Some(p.value) else prev)
  }

  /** Consuming a first entry replaces `prev` by its average when it produced. */
  lemma {:induction false} LastValueCons(p: TrendPoint, qs: seq<TrendPoint>, prev: Option<real>)
    ensures LastValue([p] + qs, prev) == LastValue(qs, if p.count > 0 then Some(p.value) else prev)
    decreases |qs|
  {
    if |qs| > 0 {
      assert ([p] + qs)[..|qs|] == [p] + qs[..|qs| - 1];
      LastValueCons(p, qs[..|qs| - 1], prev);
    }
  }

  /** Every entry of the loop is the entry of its year given the last producing average before
      it: a year without producers leaves `prev_value` as it was. */
  lemma {:induction false} TrendPrevious(step: Step, years: seq<int>, prev: Option<real>, k: nat)
    requires k < |years|
    ensures var ps := TrendFrom(step, years, prev);
      ps[k] == step(years[k], LastValue(ps[..k], prev))
    decreases |years|
  {
    var ps := TrendFrom(step, years, prev);
    if k > 0 {
      var p := ps[0];
      var prev' := if p.count > 0 then Some(p.value) else prev;
      var rest := TrendFrom(step, years[1..], prev');
      assert ps == [p] + rest;
      TrendPrevious(step, years[1..], prev', k - 1);
      assert ps[..k] == [p] + rest[..k - 1];
      LastValueCons(p, rest[..k - 1], prev);
    }
  }

  function PointFn(group: seq<AgentRow>, m: Metric, store: Store): Step {
    (year: int, prev: Option<real>) => Point(group, m, store, year, prev)
  }

  /** A group's `trend`: one entry per statistics year, starting without a previous average. */
  function GroupTrend(group: seq<AgentRow>, m: Metric, store: Store): seq<TrendPoint> {
    TrendFrom(PointFn(group, m, store), Years, None)
  }

  /** The trend has the four statistics years in order, each entry being that of its year given
      the last producing average before it; its first entry never has a change, and an entry has
      one exactly when it produced and that average exists and is positive, the change then being
      relative to that average. */
  lemma TrendChanges(group: seq<AgentRow>, m: Metric, store: Store, k: nat)
    requires k < |Years|
    ensures var ps := GroupTrend(group, m, store);
      && |ps| == |Years| && ps[k].year == Years[k]
      && ps[k] == Point(group, m, store, Years[k], LastValue(ps[..k], None))
      && ps[0].yoyChange == None
      && ChangeAgainst(ps[k], LastValue(ps[..k], None))
  {
    TrendPrevious(PointFn(group, m, store), Years, None, k);
  }

  /** The last producing average before an entry belongs to an earlier producing entry. */
  lemma {:induction false} LastValueFrom(ps: seq<TrendPoint>)
    ensures LastValue(ps, None).Some? <==> exists j :: 0 <= j < |ps| && ps[j].count > 0
    ensures LastValue(ps, None).Some? ==>
      exists j :: 0 <= j < |ps| && ps[j].count > 0 && LastValue(ps, None).value == ps[j].value
        && forall i :: j < i < |ps| ==> ps[i].count == 0
    decreases |ps|
  {
    if |ps| > 0 {
      var init := ps[..|ps| - 1];
      LastValueFrom(init);
      if ps[|ps| - 1].count == 0 && LastValue(init, None).Some? {
        var j :| 0 <= j < |init| && init[j].count > 0 && LastValue(init, None).value == init[j].value
          && forall i :: j < i < |init| ==> init[i].count == 0;
        assert ps[j] == init[j];
      }
      if ps[|ps| - 1].count == 0 && LastValue(init, None).None? {
        forall j | 0 <= j < |ps| ensures ps[j].count == 0 {
          if j < |init| {
            assert ps[j] == init[j];
          }
        }
      }
    }
  }

  // ---------------------------------------------------------------- calculate_efficiency_trend

  /** The response: `{'groups': [], 'years': []}` when no agent passes the filters; otherwise one
      `{group_name, trend}` entry per group, the statistics years and the metric name as given. */
  datatype EfficiencyResult = NoTrend | Trend(groups: seq<Keyed<string, seq<TrendPoint>>>, years: seq<int>, metric: string)

  function TrendFn(m: Metric, store: Store): seq<AgentRow> -> seq<TrendPoint> {
    (g: seq<AgentRow>) => GroupTrend(g, m, store)
  }

  /** `calculate_efficiency_trend(filters, group_by, metric)`: the agents selected at the default
      year, grouped under the falsy-to-`未知` key, each group's trend computed separately. */
  function EfficiencyTrend(store: Store, filters: map<string, Value>, groupBy: string, metric: string, floatText: FloatText)
    : (r: EfficiencyResult)
    requires SortedById(store.agents)
    ensures r.NoTrend? <==> forall i :: 0 <= i < |store.agents| ==> !Selects(store.agents[i], filters, DefaultYear)
    ensures r.Trend? ==> r.years == Years && r.metric == metric
  {
    var rows := GetAgents(store.agents, filters, DefaultYear).value;
    if |rows| == 0 then NoTrend
    else
      assert rows[0] in store.agents;
      Trend(MapGroups(GroupBy(rows, RowKeyOf(groupBy, floatText)), TrendFn(MetricOf(metric), store)), Years, metric)
  }

  /** The groups of an efficiency trend, as the per-group map over the selected agents. */
  lemma EfficiencyTrendGroups(store: Store, filters: map<string, Value>, groupBy: string, metric: string, floatText: FloatText)
    requires SortedById(store.agents)
    requires EfficiencyTrend(store, filters, groupBy, metric, floatText).Trend?
    ensures EfficiencyTrend(store, filters, groupBy, metric, floatText).groups
      == MapGroups(GroupBy(GetAgents(store.agents, filters, DefaultYear).value, RowKeyOf(groupBy, floatText)), TrendFn(MetricOf(metric), store))
  {
  }

  /** The groups are the distinct keys of the selected agents in first-seen order, and each
      group's trend is computed from exactly its own agents. */
  lemma EfficiencyGroups(store: Store, filters: map<string, Value>, groupBy: string, metric: string, floatText: FloatText)
    requires SortedById(store.agents)
    requires EfficiencyTrend(store, filters, groupBy, metric, floatText).Trend?
    ensures var r, rows, key := EfficiencyTrend(store, filters, groupBy, metric, floatText),
                                GetAgents(store.agents, filters, DefaultYear).value, RowKeyOf(groupBy, floatText);
      && |r.groups| == |FirstSeen(KeyList(rows, key))|
      && forall i :: 0 <= i < |r.groups| ==>
           r.groups[i].key == FirstSeen(KeyList(rows, key))[i]
           && r.groups[i].value == GroupTrend(WithKey(rows, key, r.groups[i].key), MetricOf(metric), store)
  {
    var rows, key := GetAgents(store.agents, filters, DefaultYear).value, RowKeyOf(groupBy, floatText);
    EfficiencyTrendGroups(store, filters, groupBy, metric, floatText);
    MapGroupBy(rows, key, TrendFn(MetricOf(metric), store));
  }

  /** An unknown metric name reports the FYP averages under its own name. */
  lemma MetricFallback(store: Store, filters: map<string, Value>, groupBy: string, metric: string, floatText: FloatText)
    requires SortedById(store.agents)
    requires metric !in {"avg_fyp", "avg_ape", "avg_fyc", "avg_margin"}
    ensures var r, f := EfficiencyTrend(store, filters, groupBy, metric, floatText), EfficiencyTrend(store, filters, groupBy, "avg_fyp", floatText);
      && r.Trend? == f.Trend?
      && (r.Trend? ==> r.groups == f.groups && r.metric == metric)
  {
    assert MetricOf(metric) == MetricOf("avg_fyp");
  }
}
