/** Margin analysis of backend/services/kpi_calculator.py: the per-agent margin, the group
    statistics, the single-dimension ranking, the row-by-column cross table and the summary. */
module KpiMargin {
  import opened Wrappers
  import opened Seqs
  import opened Text
  import opened Grouping
  import opened Schemas
  import opened DataStore
  import opened KpiFields
  import opened StableSort

  // ---------------------------------------------------------------- per-agent margin

  /** A number the margin loop computes: the int `0` that an `or 0` or a `.get(..., 0)` fallback
      yields, or a float. No other int arises, since every amount it reads is a REAL column or a
      SUM over one. The two differ only under `str()`: `"0"` against the float's text. */
  datatype Number = IntZero | Float(x: real) {

    function Value(): real {
      match this
      case IntZero => 0.0
      case Float(x) => x
    }

    /** The number as a dict value. */
    function AsScalar(): (v: Scalar)
      ensures v == IntValue(0) <==> this.IntZero?
      ensures v.RealValue? <==> this.Float?
      ensures v.RealValue? ==> v.x == Value()
    {
      match this
      case IntZero => IntValue(0)
      case Float(x) => RealValue(x)
    }
  }

  /** `x or 0` on a float read from the store: a zero float becomes the int `0`. */
  function OrZero(x: real): (n: Number)
    ensures n.Value() == x
    ensures n.IntZero? <==> x == 0.0
  {
    if x == 0.0 then IntZero else Float(x)
  }

  /** Python's `a - b` on two such numbers: an int only when both are. */
  function Minus(a: Number, b: Number): (n: Number)
    ensures n.Value() == a.Value() - b.Value()
    ensures n.IntZero? <==> a.IntZero? && b.IntZero?
  {
    if a.IntZero? && b.IntZero? then IntZero else Float(a.Value() - b.Value())
  }

  /** An agent dict after the margin loop has added `points`, `social_security`, `margin` and
      `margin_rate` to it. */
  datatype Enriched = Enriched(row: AgentRow, points: Number, socialSecurity: Number, margin: Number, marginRate: Number)

  /** `points_summary.get(aid, {}).get('net', 0)`, where the summary's `net` is
      `(granted or 0) - (used or 0)`. */
  function PointsNet(pts: map<int, PointsTotals>, id: int): (n: Number)
    ensures id in pts ==> n.Value() == pts[id].granted - pts[id].used
    ensures id !in pts ==> n.Value() == 0.0
    ensures n.IntZero? <==> id !in pts || (pts[id].granted == 0.0 && pts[id].used == 0.0)
  {
    if id in pts then Minus(OrZero(pts[id].granted), OrZero(pts[id].used)) else IntZero
  }

  /** `ss_summary.get(aid, 0)`, where the summary holds `total or 0`. */
  function SocialSecurityOf(ss: map<Option<int>, real>, id: int): (n: Number)
    ensures n.Value() == (if Some(id) in ss then ss[Some(id)] else 0.0)
    ensures n.IntZero? <==> n.Value() == 0.0
  {
    if Some(id) in ss then OrZero(ss[Some(id)]) else IntZero
  }

  /** The margin identity: FYC minus income, net points and employer social security. */
  predicate MarginConsistent(e: Enriched, year: int) {
    e.margin.Value() == Amount(e.row.fyc, year) - Amount(e.row.income, year) - e.points.Value() - e.socialSecurity.Value()
  }

  /** One iteration of the margin loop of `calculate_margin_analysis`. The margin is the int `0`
      only when all four terms are, and the rate only when FYC is not positive. */
  function Enrich(row: AgentRow, pts: map<int, PointsTotals>, ss: map<Option<int>, real>, year: int): (e: Enriched)
    ensures e.row == row
    ensures e.points == PointsNet(pts, row.agentId) && e.socialSecurity == SocialSecurityOf(ss, row.agentId)
    ensures MarginConsistent(e, year)
    ensures Amount(row.fyc, year) > 0.0 ==> e.marginRate.Float? && e.marginRate.x * Amount(row.fyc, year) == e.margin.Value()
    ensures Amount(row.fyc, year) <= 0.0 ==> e.marginRate == IntZero
    ensures e.margin.IntZero? <==>
      (Amount(row.fyc, year) == 0.0 && Amount(row.income, year) == 0.0 && e.points.IntZero? && e.socialSecurity.IntZero?)
  {
    var fyc := Amount(row.fyc, year);
    var points := PointsNet(pts, row.agentId);
    var social := SocialSecurityOf(ss, row.agentId);
    var margin := Minus(Minus(Minus(OrZero(fyc), OrZero(Amount(row.income, year))), points), social);
    var rate := if fyc > 0.0 then Float(margin.Value() / fyc) else IntZero;
    Enriched(row, points, social, margin, rate)
  }

  /** `[a['agent_id'] for a in agents]`. */
  function Ids(rows: seq<AgentRow>): (ids: seq<int>)
    ensures |ids| == |rows| && forall i :: 0 <= i < |rows| ==> ids[i] == rows[i].agentId
  {
    seq(|rows|, i requires 0 <= i < |rows| => rows[i].agentId)
  }

  /** The margin loop over `rows`, with the points and social-security summaries fetched for
      their ids. */
  function EnrichAll(rows: seq<AgentRow>, store: Store, year: int): (es: seq<Enriched>)
    ensures |es| == |rows|
    ensures forall i :: 0 <= i < |rows| ==>
      es[i] == Enrich(rows[i], PointsSummary(store.points, Ids(rows), year), SSSummary(store.socialSecurity, Ids(rows), year), year)
  {
    var pts := PointsSummary(store.points, Ids(rows), year);
    var ss := SSSummary(store.socialSecurity, Ids(rows), year);
    seq(|rows|, i requires 0 <= i < |rows| => Enrich(rows[i], pts, ss, year))
  }

  /** The defaults of the two lookups agree with the tables: an agent without a points or
      social-security entry has nothing to sum, so each enriched agent carries exactly its
      granted minus used points of the year and its employer social security of the year. */
  lemma EnrichAllFromTables(rows: seq<AgentRow>, store: Store, year: int, i: nat)
    requires i < |rows|
    ensures var e := EnrichAll(rows, store, year)[i];
      && e.points.Value() == GrantedOf(store.points, Ids(rows), year, rows[i].agentId) - UsedOf(store.points, Ids(rows), year, rows[i].agentId)
      && e.socialSecurity.Value() == CompanyTotalOf(store.socialSecurity, Ids(rows), year, Some(rows[i].agentId))
  {
    PointsGroupsAgree(store.points, Ids(rows), year);
    SSSummaryAgrees(store.socialSecurity, Ids(rows), year);
  }

  // ---------------------------------------------------------------- group statistics

  /** `_calculate_group_stats` without the rounding. */
  datatype Stats = Stats(
    agentCount: nat,
    totalFyc: real,
    totalIncome: real,
    totalPoints: real,
    totalSocialSecurity: real,
    totalMargin: real,
    marginRate: real,
    avgFyp: real,
    avgApe: real,
    avgFyc: real,
    avgMargin: real)

  const ZeroStats: Stats := Stats(0, 0.0, 0.0, 0.0, 0.0, 0.0, 0.0, 0.0, 0.0, 0.0, 0.0)

  /** `a.get(f'<name>_{year}', 0) or 0` and the fields the margin loop added, as summands. */
  function Fyc(year: int): Enriched -> real { (e: Enriched) => Amount(e.row.fyc, year) }
  function Income(year: int): Enriched -> real { (e: Enriched) => Amount(e.row.income, year) }
  function Fyp(year: int): Enriched -> real { (e: Enriched) => Amount(e.row.fyp, year) }
  function Ape(year: int): Enriched -> real { (e: Enriched) => Amount(e.row.ape, year) }
  const PointsTerm: Enriched -> real := (e: Enriched) => e.points.Value()
  const SocialSecurityTerm: Enriched -> real := (e: Enriched) => e.socialSecurity.Value()
  const MarginTerm: Enriched -> real := (e: Enriched) => e.margin.Value()
  const One: Enriched -> real := (e: Enriched) => 1.0

  /** `_calculate_group_stats(agents, year)`: all zeros for no agents; otherwise the totals, the
      zero-safe margin rate and the per-agent averages. */
  function GroupStats(es: seq<Enriched>, year: int): (s: Stats)
    ensures |es| == 0 ==> s == ZeroStats
    ensures s.agentCount == |es|
    ensures s.totalFyc == Sum(es, Fyc(year)) && s.totalIncome == Sum(es, Income(year))
    ensures s.totalPoints == Sum(es, PointsTerm) && s.totalSocialSecurity == Sum(es, SocialSecurityTerm)
    ensures s.totalMargin == Sum(es, MarginTerm)
    ensures s.totalFyc > 0.0 ==> s.marginRate * s.totalFyc == s.totalMargin
    ensures s.totalFyc <= 0.0 ==> s.marginRate == 0.0
    ensures |es| > 0 ==> var n := |es| as real;
      && s.avgFyp * n == Sum(es, Fyp(year)) && s.avgApe * n == Sum(es, Ape(year))
      && s.avgFyc * n == s.totalFyc && s.avgMargin * n == s.totalMargin
  {
    if |es| == 0 then ZeroStats
    else
      var n := |es| as real;
      var fyc := Sum(es, Fyc(year));
      var margin := Sum(es, MarginTerm);
      Stats(|es|, fyc, Sum(es, Income(year)), Sum(es, PointsTerm), Sum(es, SocialSecurityTerm), margin,
            Ratio(margin, fyc), Sum(es, Fyp(year)) / n, Sum(es, Ape(year)) / n, fyc / n, margin / n)
  }

  /** The margin identity survives aggregation: a group's total margin is its total FYC minus its
      total income, points and social security. */
  lemma GroupStatsMarginIdentity(es: seq<Enriched>, year: int)
    requires forall i :: 0 <= i < |es| ==> MarginConsistent(es[i], year)
    ensures var s := GroupStats(es, year);
      s.totalMargin == s.totalFyc - s.totalIncome - s.totalPoints - s.totalSocialSecurity
  {
    var a: Enriched -> real := (e: Enriched) => Amount(e.row.fyc, year) - Amount(e.row.income, year);
    var b: Enriched -> real := (e: Enriched) => Amount(e.row.fyc, year) - Amount(e.row.income, year) - e.points.Value();
    SumDifference(es, Fyc(year), Income(year), a);
    SumDifference(es, a, PointsTerm, b);
    SumDifference(es, b, SocialSecurityTerm, MarginTerm);
  }

  /** The statistics depend only on which agents are in the group, not on their order. */
  lemma GroupStatsPermutation(a: seq<Enriched>, b: seq<Enriched>, year: int)
    requires multiset(a) == multiset(b)
    ensures GroupStats(a, year) == GroupStats(b, year)
  {
    assert |a| == |multiset(a)| == |multiset(b)| == |b|;
    SumPermutation(a, b, Fyc(year));
    SumPermutation(a, b, Income(year));
    SumPermutation(a, b, Fyp(year));
    SumPermutation(a, b, Ape(year));
    SumPermutation(a, b, PointsTerm);
    SumPermutation(a, b, SocialSecurityTerm);
    SumPermutation(a, b, MarginTerm);
  }

  lemma {:induction false} SumOne(es: seq<Enriched>)
    ensures Sum(es, One) == |es| as real
    decreases |es|
  {
    if |es| > 0 {
      SumOne(es[..|es| - 1]);
    }
  }

  // ---------------------------------------------------------------- single grouping

  /** A group's statistics with its `group_name`. */
  datatype NamedStats = NamedStats(groupName: string, stats: Stats)

  /** The four fields the margin loop adds to an agent dict. */
  const EnrichedFields: set<string> := {"points", "social_security", "margin", "margin_rate"}

  /** `agent.get(field)` on an agent dict after the margin loop: an added field holds its number,
      the int `0` kept as an int, and every other field is the row's. */
  function EnrichedField(e: Enriched, field: string): (r: Option<Scalar>)
    ensures field !in EnrichedFields ==> r == RowField(e.row, field)
    ensures field in EnrichedFields ==> r.Some? && (r.value.IntValue? || r.value.RealValue?)
    ensures field == "margin" ==> (r.value == IntValue(0) <==> e.margin.IntZero?)
    ensures field == "margin_rate" ==> (r.value == IntValue(0) <==> e.marginRate.IntZero?)
    ensures field == "points" ==> (r.value == IntValue(0) <==> e.points.IntZero?)
    ensures field == "social_security" ==> (r.value == IntValue(0) <==> e.socialSecurity.IntZero?)
  {
    if field == "points" then Some(e.points.AsScalar())
    else if field == "social_security" then Some(e.socialSecurity.AsScalar())
    else if field == "margin" then Some(e.margin.AsScalar())
    else if field == "margin_rate" then Some(e.marginRate.AsScalar())
    else RowField(e.row, field)
  }

  function SingleKeyOf(groupBy: string, floatText: FloatText): Enriched -> string {
    (e: Enriched) => SingleKey(EnrichedField(e, groupBy), floatText)
  }

  function FalsyKeyOf(groupBy: string, floatText: FloatText): Enriched -> string {
    (e: Enriched) => FalsyKey(EnrichedField(e, groupBy), floatText)
  }

  /** Grouping on an added field tells the int `0` from a float zero: an agent without bill rows
      or without FYC gets the key `"0"`, while a positive FYC with a zero margin gets the float's
      text, so the two land in different groups. */
  lemma EnrichedZeroKeys(row: AgentRow, pts: map<int, PointsTotals>, ss: map<Option<int>, real>, year: int, floatText: FloatText)
    ensures var e := Enrich(row, pts, ss, year);
      && (Amount(row.fyc, year) <= 0.0 ==> SingleKey(EnrichedField(e, "margin_rate"), floatText) == "0")
      && (Amount(row.fyc, year) > 0.0 ==> SingleKey(EnrichedField(e, "margin_rate"), floatText) == floatText(e.marginRate.x))
      && (Amount(row.fyc, year) > 0.0 && e.margin.Value() == 0.0 ==>
            SingleKey(EnrichedField(e, "margin_rate"), floatText) == floatText(0.0))
      && (Some(row.agentId) !in ss ==> SingleKey(EnrichedField(e, "social_security"), floatText) == "0")
      && (row.agentId !in pts ==> SingleKey(EnrichedField(e, "points"), floatText) == "0")
  {
    assert IntToString(0) == NatToString(0) == "0";
  }

  /** The loop over `groups.items()`: one statistics entry per group, in first-seen order. */
  function StatsOf(gs: seq<Group<string, Enriched>>, year: int): (r: seq<NamedStats>)
    ensures |r| == |gs|
    ensures forall i :: 0 <= i < |gs| ==> r[i] == NamedStats(gs[i].key, GroupStats(gs[i].members, year))
    decreases |gs|
  {
    if |gs| == 0 then []
    else [NamedStats(gs[0].key, GroupStats(gs[0].members, year))] + StatsOf(gs[1..], year)
  }

  /** Summing a statistic over the entries is summing its per-agent term group by group. */
  lemma {:induction false} StatsOfSum(gs: seq<Group<string, Enriched>>, year: int, f: NamedStats -> real, g: Enriched -> real)
    requires forall i :: 0 <= i < |gs| ==> f(NamedStats(gs[i].key, GroupStats(gs[i].members, year))) == Sum(gs[i].members, g)
    ensures Sum(StatsOf(gs, year), f) == GroupSum(gs, g)
    decreases |gs|
  {
    if |gs| > 0 {
      var h := NamedStats(gs[0].key, GroupStats(gs[0].members, year));
      StatsOfSum(gs[1..], year, f, g);
      SumAppend([h], StatsOf(gs[1..], year), f);
      assert [h][..0] == [];
    }
  }

  /** The sort key of the single ranking. */
  const RateOf: NamedStats -> real := (n: NamedStats) => n.stats.marginRate

  /** `_single_group_analysis(agents, group_by, year)`: the groups by single-dimension key with
      their statistics, highest margin rate first. */
  function SingleGroupAnalysis(es: seq<Enriched>, groupBy: string, year: int, floatText: FloatText): (r: seq<NamedStats>)
    ensures Descending(r, RateOf)
    ensures |r| == |GroupBy(es, SingleKeyOf(groupBy, floatText))|
    ensures multiset(r) == multiset(StatsOf(GroupBy(es, SingleKeyOf(groupBy, floatText)), year))
  {
    var st := StatsOf(GroupBy(es, SingleKeyOf(groupBy, floatText)), year);
    var r := Sort(st, RateOf);
    assert |r| == |multiset(r)| == |multiset(st)| == |st|;
    r
  }

  /** Ties keep first-seen order: among groups of equal margin rate the ranking lists them as the
      agents first revealed them. */
  lemma SingleGroupTies(es: seq<Enriched>, groupBy: string, year: int, floatText: FloatText, v: real)
    ensures Ties(SingleGroupAnalysis(es, groupBy, year, floatText), RateOf, v)
         == Ties(StatsOf(GroupBy(es, SingleKeyOf(groupBy, floatText)), year), RateOf, v)
  {
    SortStable(StatsOf(GroupBy(es, SingleKeyOf(groupBy, floatText)), year), RateOf, v);
  }

  const CountOf: NamedStats -> real := (n: NamedStats) => n.stats.agentCount as real
  const FycOf: NamedStats -> real := (n: NamedStats) => n.stats.totalFyc
  const MarginOf: NamedStats -> real := (n: NamedStats) => n.stats.totalMargin

  const NameOf: NamedStats -> string := (n: NamedStats) => n.groupName

  function StatsFn(year: int): (string, seq<Enriched>) -> NamedStats {
    (k: string, m: seq<Enriched>) => NamedStats(k, GroupStats(m, year))
  }

  /** The single grouping partitions the agents: each group holds exactly the agents with its
      key, and every agent's key names a group. */
  lemma SingleGroupPartition(es: seq<Enriched>, groupBy: string, year: int, floatText: FloatText)
    ensures var key, r := SingleKeyOf(groupBy, floatText), SingleGroupAnalysis(es, groupBy, year, floatText);
      && (forall i :: 0 <= i < |r| ==> r[i].stats == GroupStats(WithKey(es, key, r[i].groupName), year) && r[i].stats.agentCount > 0)
      && (forall i :: 0 <= i < |es| ==> exists j :: 0 <= j < |r| && r[j].groupName == key(es[i]))
  {
    var key := SingleKeyOf(groupBy, floatText);
    var st := StatsOf(GroupBy(es, key), year);
    var r := SingleGroupAnalysis(es, groupBy, year, floatText);
    forall i | 0 <= i < |r| ensures r[i].stats == GroupStats(WithKey(es, key, r[i].groupName), year) && r[i].stats.agentCount > 0 {
      PermutedGroupResult(es, key, StatsFn(year), NameOf, st, r, i);
    }
    forall i | 0 <= i < |es| ensures exists j :: 0 <= j < |r| && r[j].groupName == key(es[i]) {
      PermutedGroupOf(es, key, StatsFn(year), NameOf, st, r, i);
    }
  }

  /** A statistic that is a per-agent sum adds up over the ranked groups to its value over all agents. */
  lemma RankedSum(es: seq<Enriched>, key: Enriched -> string, year: int, f: NamedStats -> real, g: Enriched -> real)
    requires forall k, m :: f(NamedStats(k, GroupStats(m, year))) == Sum(m, g)
    ensures Sum(Sort(StatsOf(GroupBy(es, key), year), RateOf), f) == Sum(es, g)
  {
    var st := StatsOf(GroupBy(es, key), year);
    StatsOfSum(GroupBy(es, key), year, f, g);
    GroupBySum(es, key, g);
    SumPermutation(Sort(st, RateOf), st, f);
  }

  /** The agent counts, FYC totals and margin totals of the groups add up to those of all agents. */
  lemma SingleGroupTotals(es: seq<Enriched>, groupBy: string, year: int, floatText: FloatText)
    ensures var r := SingleGroupAnalysis(es, groupBy, year, floatText);
      && Sum(r, CountOf) == |es| as real
      && Sum(r, FycOf) == GroupStats(es, year).totalFyc
      && Sum(r, MarginOf) == GroupStats(es, year).totalMargin
  {
    var key := SingleKeyOf(groupBy, floatText);
    forall k, m ensures CountOf(NamedStats(k, GroupStats(m, year))) == Sum(m, One) {
      SumOne(m);
    }
    RankedSum(es, key, year, CountOf, One);
    RankedSum(es, key, year, FycOf, Fyc(year));
    RankedSum(es, key, year, MarginOf, MarginTerm);
    SumOne(es);
  }

  // ---------------------------------------------------------------- cross grouping

  const Total: string := "合计"

  /** A cell of the cross table: the statistics of a non-empty cell, or the stub an empty one
      gets (`agent_count` 0, `margin_rate` 0 and nothing else). */
  datatype CrossCell = FilledCell(colName: string, stats: Stats) | EmptyCell(colName: string)

  function CellCount(c: CrossCell): nat {
    if c.FilledCell? then c.stats.agentCount else 0
  }


  datatype CrossRow = CrossRow(rowName: string, cells: seq<CrossCell>)

  datatype CrossTable = CrossTable(columns: seq<string>, matrix: seq<CrossRow>)

  /** `cross_data[row].get(col, [])` turned into a cell. */
  function Cell(groups: seq<Group<string, Enriched>>, col: string, year: int): (c: CrossCell)
    ensures c.colName == col
    ensures c.EmptyCell? <==> |Lookup(groups, col)| == 0
    ensures c.FilledCell? ==> c.stats == GroupStats(Lookup(groups, col), year)
  {
    var members := Lookup(groups, col);
    if |members| > 0 then FilledCell(col, GroupStats(members, year)) else EmptyCell(col)
  }

  /** The cells of one row, one per column in column order. */
  function Cells(groups: seq<Group<string, Enriched>>, cols: seq<string>, year: int): (cs: seq<CrossCell>)
    ensures |cs| == |cols|
    ensures forall j :: 0 <= j < |cols| ==> cs[j] == Cell(groups, cols[j], year)
    decreases |cols|
  {
    if |cols| == 0 then []
    else Cells(groups, cols[..|cols| - 1], year) + [Cell(groups, cols[|cols| - 1], year)]
  }

  /** One row of the matrix: a cell per column, then the `合计` cell over the row's agents
      collected column group by column group, as `row_all.values()` lists them. */
  function CrossRowOf(es: seq<Enriched>, rowKey: Enriched -> string, colKey: Enriched -> string, cols: seq<string>, row: string, year: int)
    : (r: CrossRow)
    ensures r.rowName == row && |r.cells| == |cols| + 1
    ensures forall j :: 0 <= j < |cols| ==> r.cells[j].colName == cols[j]
    ensures r.cells[|cols|].FilledCell? && r.cells[|cols|].colName == Total
  {
    var groups := GroupBy(Lookup(GroupBy(es, rowKey), row), colKey);
    CrossRow(row, Cells(groups, cols, year) + [FilledCell(Total, GroupStats(Flatten(groups), year))])
  }

  function RowNames(t: CrossTable): (names: seq<string>)
    ensures |names| == |t.matrix| && forall i :: 0 <= i < |t.matrix| ==> names[i] == t.matrix[i].rowName
  {
    seq(|t.matrix|, i requires 0 <= i < |t.matrix| => t.matrix[i].rowName)
  }

  /** The column keys of the table, `sorted(cols)`: the last column is `合计`. */
  function DataColumns(t: CrossTable): seq<string> {
    if |t.columns| == 0 then [] else t.columns[..|t.columns| - 1]
  }

  /** `_cross_group_analysis(agents, row_by, col_by, year)`: rows are the sorted distinct row
      keys, columns the sorted distinct column keys over all rows followed by `合计`, and every
      row has one cell per column. */
  function CrossGroupAnalysis(es: seq<Enriched>, rowBy: string, colBy: string, year: int, floatText: FloatText): (t: CrossTable)
    ensures |t.columns| > 0 && t.columns[|t.columns| - 1] == Total
    ensures StrictlySorted(DataColumns(t))
    ensures forall c :: c in DataColumns(t) <==> exists i :: 0 <= i < |es| && FalsyKeyOf(colBy, floatText)(es[i]) == c
    ensures StrictlySorted(RowNames(t))
    ensures forall r :: r in RowNames(t) <==> exists i :: 0 <= i < |es| && FalsyKeyOf(rowBy, floatText)(es[i]) == r
    ensures forall i :: 0 <= i < |t.matrix| ==>
      && |t.matrix[i].cells| == |t.columns|
      && (forall j :: 0 <= j < |t.columns| ==> t.matrix[i].cells[j].colName == t.columns[j])
  {
    var rowKey, colKey := FalsyKeyOf(rowBy, floatText), FalsyKeyOf(colBy, floatText);
    var rows := SortedDistinct(KeyList(es, rowKey));
    var cols := SortedDistinct(KeyList(es, colKey));
    var t := CrossTable(cols + [Total], seq(|rows|, i requires 0 <= i < |rows| => CrossRowOf(es, rowKey, colKey, cols, rows[i], year)));
    assert DataColumns(t) == cols;
    assert RowNames(t) == rows;
    t
  }

  /** What a cell holds: exactly the agents of its row and column. An empty cell is one no agent
      falls in; the `合计` cell covers every agent of the row. */
  lemma CrossCellContents(es: seq<Enriched>, rowBy: string, colBy: string, year: int, floatText: FloatText, i: nat, j: nat)
    requires i < |CrossGroupAnalysis(es, rowBy, colBy, year, floatText).matrix|
    requires j < |CrossGroupAnalysis(es, rowBy, colBy, year, floatText).columns|
    ensures var t, rowKey, colKey := CrossGroupAnalysis(es, rowBy, colBy, year, floatText), FalsyKeyOf(rowBy, floatText), FalsyKeyOf(colBy, floatText);
      var row, cell := t.matrix[i], t.matrix[i].cells[j];
      var inRow := WithKey(es, rowKey, row.rowName);
      && (j < |t.columns| - 1 ==> (cell.EmptyCell? <==> |WithKey(inRow, colKey, t.columns[j])| == 0))
      && (j < |t.columns| - 1 && cell.FilledCell? ==> cell.stats == GroupStats(WithKey(inRow, colKey, t.columns[j]), year))
      && (j == |t.columns| - 1 ==> cell == FilledCell(Total, GroupStats(inRow, year)))
  {
    var t, rowKey, colKey := CrossGroupAnalysis(es, rowBy, colBy, year, floatText), FalsyKeyOf(rowBy, floatText), FalsyKeyOf(colBy, floatText);
    var rows := SortedDistinct(KeyList(es, rowKey));
    var cols := SortedDistinct(KeyList(es, colKey));
    var name := t.matrix[i].rowName;
    assert t.matrix[i] == CrossRowOf(es, rowKey, colKey, cols, rows[i], year);
    GroupByLookup(es, rowKey, name);
    var inRow := WithKey(es, rowKey, name);
    var groups := GroupBy(inRow, colKey);
    if j < |cols| {
      GroupByLookup(inRow, colKey, cols[j]);
    } else {
      GroupByMultiset(inRow, colKey);
      GroupStatsPermutation(Flatten(groups), inRow, year);
    }
  }

  const CellCountTerm: CrossCell -> real := (c: CrossCell) => CellCount(c) as real
  const CellFyc: CrossCell -> real := (c: CrossCell) => if c.FilledCell? then c.stats.totalFyc else 0.0
  const CellMargin: CrossCell -> real := (c: CrossCell) => if c.FilledCell? then c.stats.totalMargin else 0.0

  /** Summing a cell statistic along a row is summing its per-agent term column by column. */
  lemma {:induction false} CellsSum(xs: seq<Enriched>, colKey: Enriched -> string, cols: seq<string>, year: int,
                                    f: CrossCell -> real, g: Enriched -> real)
    requires forall c, m :: |m| > 0 ==> f(FilledCell(c, GroupStats(m, year))) == Sum(m, g)
    requires forall c :: f(EmptyCell(c)) == 0.0
    ensures Sum(Cells(GroupBy(xs, colKey), cols, year), f) == SumOverKeys(cols, xs, colKey, g)
    decreases |cols|
  {
    if |cols| > 0 {
      var n := |cols| - 1;
      var groups := GroupBy(xs, colKey);
      CellsSum(xs, colKey, cols[..n], year, f, g);
      GroupByLookup(xs, colKey, cols[n]);
      var cs := Cells(groups, cols, year);
      assert cs[..|cs| - 1] == Cells(groups, cols[..n], year);
    }
  }

  lemma StrictlySortedDistinct(s: seq<string>)
    requires StrictlySorted(s)
    ensures forall i, j :: 0 <= i < j < |s| ==> s[i] != s[j]
  {
    forall i, j | 0 <= i < j < |s| ensures s[i] != s[j] {
      if s[i] == s[j] {
        LessIrreflexive(s[i]);
      }
    }
  }

  /** A cell statistic summed along a row equals the row's statistic over all its agents. */
  lemma RowSum(es: seq<Enriched>, rowKey: Enriched -> string, colKey: Enriched -> string, name: string, year: int,
               f: CrossCell -> real, g: Enriched -> real)
    requires forall c, m :: |m| > 0 ==> f(FilledCell(c, GroupStats(m, year))) == Sum(m, g)
    requires forall c :: f(EmptyCell(c)) == 0.0
    ensures var inRow := WithKey(es, rowKey, name);
      Sum(Cells(GroupBy(inRow, colKey), SortedDistinct(KeyList(es, colKey)), year), f) == Sum(inRow, g)
  {
    var inRow := WithKey(es, rowKey, name);
    var cols := SortedDistinct(KeyList(es, colKey));
    CellsSum(inRow, colKey, cols, year, f, g);
    StrictlySortedDistinct(cols);
    forall i | 0 <= i < |inRow| ensures colKey(inRow[i]) in cols {
      var k :| 0 <= k < |es| && es[k] == inRow[i];
      assert colKey(inRow[i]) == KeyList(es, colKey)[k];
    }
    SumOverKeysAll(cols, inRow, colKey, g);
  }

  /** The `合计` cell is the union of the row's cells: the agent counts, FYC totals and margin
      totals of the cells add up to its own. */
  lemma CrossRowTotals(es: seq<Enriched>, rowBy: string, colBy: string, year: int, floatText: FloatText, i: nat)
    requires i < |CrossGroupAnalysis(es, rowBy, colBy, year, floatText).matrix|
    ensures var t := CrossGroupAnalysis(es, rowBy, colBy, year, floatText);
      var cells := t.matrix[i].cells;
      var last := cells[|cells| - 1];
      && last.FilledCell?
      && Sum(cells[..|cells| - 1], CellCountTerm) == last.stats.agentCount as real
      && Sum(cells[..|cells| - 1], CellFyc) == last.stats.totalFyc
      && Sum(cells[..|cells| - 1], CellMargin) == last.stats.totalMargin
  {
    var t, rowKey, colKey := CrossGroupAnalysis(es, rowBy, colBy, year, floatText), FalsyKeyOf(rowBy, floatText), FalsyKeyOf(colBy, floatText);
    var rows := SortedDistinct(KeyList(es, rowKey));
    var cols := SortedDistinct(KeyList(es, colKey));
    var name := t.matrix[i].rowName;
    var inRow := WithKey(es, rowKey, name);
    assert t.matrix[i] == CrossRowOf(es, rowKey, colKey, cols, rows[i], year);
    GroupByLookup(es, rowKey, name);
    var cells := t.matrix[i].cells;
    assert cells[..|cells| - 1] == Cells(GroupBy(inRow, colKey), cols, year);
    CrossCellContents(es, rowBy, colBy, year, floatText, i, |cols|);
    forall c, m | |m| > 0 ensures CellCountTerm(FilledCell(c, GroupStats(m, year))) == Sum(m, One) {
      SumOne(m);
    }
    RowSum(es, rowKey, colKey, name, year, CellCountTerm, One);
    RowSum(es, rowKey, colKey, name, year, CellFyc, Fyc(year));
    RowSum(es, rowKey, colKey, name, year, CellMargin, MarginTerm);
    SumOne(inRow);
  }

  // ---------------------------------------------------------------- calculate_margin_analysis

  /** `_calculate_summary`: the statistics over all filtered agents, tagged with the year. */
  datatype Summary = Summary(stats: Stats, year: int)

  /** The shapes of the result: `{'groups': [], 'summary': {}}` when no agent passes the filters,
      otherwise the single ranking or the cross table, each with the summary. */
  datatype MarginResult =
    | NoAgents
    | SingleGroups(groups: seq<NamedStats>, summary: Summary)
    | CrossGroups(table: CrossTable, summary: Summary)

  /** `if cross_group_by:` */
  predicate Given(o: Option<string>) {
    o.Some? && o.value != ""
  }

  /** `calculate_margin_analysis(filters, group_by, cross_group_by, year)` over the three tables. */
  function MarginAnalysis(store: Store, filters: map<string, Value>, groupBy: string, crossGroupBy: Option<string>, year: int,
                          floatText: FloatText): (r: Result<MarginResult, QueryError>)
    requires SortedById(store.agents)
    ensures r.Err? <==> GetAgents(store.agents, filters, year).Err?
    ensures r.Ok? ==> var rows := GetAgents(store.agents, filters, year).value;
      && (r.value.NoAgents? <==> |rows| == 0)
      && (r.value.CrossGroups? <==> |rows| > 0 && Given(crossGroupBy))
      && (!r.value.NoAgents? ==> r.value.summary == Summary(GroupStats(EnrichAll(rows, store, year), year), year))
  {
    match GetAgents(store.agents, filters, year)
    case Err(e) => Err(e)
    case Ok(rows) =>
      if |rows| == 0 then Ok(NoAgents)
      else
        var es := EnrichAll(rows, store, year);
        var summary := Summary(GroupStats(es, year), year);
        if Given(crossGroupBy) then Ok(CrossGroups(CrossGroupAnalysis(es, groupBy, crossGroupBy.value, year, floatText), summary))
        else Ok(SingleGroups(SingleGroupAnalysis(es, groupBy, year, floatText), summary))
  }

  /** The summary counts every filtered agent and satisfies the margin identity, and it is the
      same whatever the grouping. */
  lemma MarginSummary(store: Store, filters: map<string, Value>, groupBy: string, crossGroupBy: Option<string>,
                      groupBy': string, crossGroupBy': Option<string>, year: int, floatText: FloatText)
    requires SortedById(store.agents)
    ensures var r, r' := MarginAnalysis(store, filters, groupBy, crossGroupBy, year, floatText),
                         MarginAnalysis(store, filters, groupBy', crossGroupBy', year, floatText);
      r.Ok? && !r.value.NoAgents? ==>
        var s := r.value.summary.stats;
        && r.value.summary.year == year
        && s.agentCount == |GetAgents(store.agents, filters, year).value|
        && s.totalMargin == s.totalFyc - s.totalIncome - s.totalPoints - s.totalSocialSecurity
        && r'.Ok? && !r'.value.NoAgents? && r'.value.summary == r.value.summary
  {
    if GetAgents(store.agents, filters, year).Ok? {
      var rows := GetAgents(store.agents, filters, year).value;
      var es := EnrichAll(rows, store, year);
      GroupStatsMarginIdentity(es, year);
    }
  }

  /** The groups are the ranking of the filtered, enriched agents on `group_by`, each holding the
      statistics of exactly its agents, and the cross table is the table of the same agents on
      the two dimensions. */
  lemma MarginGroups(store: Store, filters: map<string, Value>, groupBy: string, crossGroupBy: Option<string>, year: int,
                     floatText: FloatText)
    requires SortedById(store.agents)
    ensures var r := MarginAnalysis(store, filters, groupBy, crossGroupBy, year, floatText);
      r.Ok? && !r.value.NoAgents? ==>
        var es, key := EnrichAll(GetAgents(store.agents, filters, year).value, store, year), SingleKeyOf(groupBy, floatText);
        && (r.value.SingleGroups? ==> r.value.groups == SingleGroupAnalysis(es, groupBy, year, floatText))
        && (r.value.SingleGroups? ==> forall i :: 0 <= i < |r.value.groups| ==>
              r.value.groups[i].stats == GroupStats(WithKey(es, key, r.value.groups[i].groupName), year))
        && (r.value.CrossGroups? ==> r.value.table == CrossGroupAnalysis(es, groupBy, crossGroupBy.value, year, floatText))
  {
    if GetAgents(store.agents, filters, year).Ok? {
      var rows := GetAgents(store.agents, filters, year).value;
      SingleGroupPartition(EnrichAll(rows, store, year), groupBy, year, floatText);
    }
  }

  /** In a single grouping the groups' agent counts, FYC totals and margin totals add up to the
      summary's. */
  lemma MarginGroupsAddUp(store: Store, filters: map<string, Value>, groupBy: string, crossGroupBy: Option<string>, year: int,
                          floatText: FloatText)
    requires SortedById(store.agents)
    ensures var r := MarginAnalysis(store, filters, groupBy, crossGroupBy, year, floatText);
      r.Ok? && r.value.SingleGroups? ==>
        && Sum(r.value.groups, CountOf) == r.value.summary.stats.agentCount as real
        && Sum(r.value.groups, FycOf) == r.value.summary.stats.totalFyc
        && Sum(r.value.groups, MarginOf) == r.value.summary.stats.totalMargin
  {
    if GetAgents(store.agents, filters, year).Ok? {
      var rows := GetAgents(store.agents, filters, year).value;
      SingleGroupTotals(EnrichAll(rows, store, year), groupBy, year, floatText);
    }
  }
}
