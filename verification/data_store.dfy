/** The query and save semantics of backend/services/data_store.py, as pure functions over the
    four in-memory tables. The SQLite connection is outside the model; what the model keeps is
    which rows a query returns and what each stored row holds after a save. */
module DataStore {
  import opened Wrappers
  import opened Seqs
  import opened Text
  import opened Schemas
  import OrderedDict

  // ---------------------------------------------------------------- tables

  /** A row of `agents`: the agent record with the MD flags stored as INTEGER 0/1. */
  type AgentRow = AgentRecord<int>

  /** A row of `points` (only the columns the queries read). */
  datatype PointRow = PointRow(agentId: int, transactionType: Option<string>, amount: real, transactionYear: Option<int>)

  /** A row of `social_security` (only the columns the queries read); `serviceMonth` is the text
      form of the stored service month. */
  datatype SSRow = SSRow(serviceMonth: Option<string>, companyTotal: real, matchedAgentId: Option<int>)

  /** `agent_id INTEGER PRIMARY KEY`: a table scan meets the rows in increasing agent_id order. */
  ghost predicate SortedById(t: seq<AgentRow>) {
    forall i, j :: 0 <= i < j < |t| ==> t[i].agentId < t[j].agentId
  }

  /** The row with `agent_id = id`, if any. */
  function FindRow(t: seq<AgentRow>, id: int): (r: Option<AgentRow>)
    ensures r.Some? ==> r.value in t && r.value.agentId == id
    ensures r.None? ==> forall i :: 0 <= i < |t| ==> t[i].agentId != id
    decreases |t|
  {
    if |t| == 0 then None
    else if t[0].agentId == id then Some(t[0])
    else
      var r := FindRow(t[1..], id);
      assert forall i :: 1 <= i < |t| ==> t[i] == t[1..][i - 1];
      r
  }

  // ---------------------------------------------------------------- get_agents

  datatype QueryError = NoSuchColumn(column: string)

  /** A column of an agent row as SQLite sees it for an `=` comparison. */
  datatype Column = TextColumn(text: Option<string>) | IntegerColumn(number: Option<int>)

  /** The filter keys `get_agents` turns into `<column> = ?`, in the order it tests them. */
  const EqualityKeys: seq<string> := ["region", "join_year", "is_peer", "personal_level", "manager_level", "director_level"]

  function ColumnOf(row: AgentRow, key: string): (c: Option<Column>)
    ensures c.Some? <==> key in EqualityKeys
  {
    if key == "region" then Some(TextColumn(row.region))
    else if key == "join_year" then Some(IntegerColumn(row.joinYear))
    else if key == "is_peer" then Some(TextColumn(row.isPeer))
    else if key == "personal_level" then Some(TextColumn(row.personalLevel))
    else if key == "manager_level" then Some(TextColumn(row.managerLevel))
    else if key == "director_level" then Some(TextColumn(row.directorLevel))
    else None
  }

  /** `column = ?` with SQLite's type affinity: a TEXT column compares an integer parameter by
      its decimal text; an INTEGER column compares a text parameter that spells an integer by
      its value; NULL equals nothing. */
  predicate SqlEquals(c: Column, v: Value) {
    match c
    case TextColumn(None) => false
    case TextColumn(Some(s)) =>
      (match v
       case Null => false
       case Text(t) => s == t
       case Int(i) => s == IntToString(i))
    case IntegerColumn(None) => false
    case IntegerColumn(Some(n)) =>
      (match v
       case Null => false
       case Text(t) => IsDigits(t) && DigitsValue(t) == n
       case Int(i) => i == n)
  }

  /** `filters.get(key)`: None for an absent key. */
  function FilterValue(filters: map<string, Value>, key: string): Value {
    if key in filters then filters[key] else Null
  }

  /** `if filters.get(key):` — the filter is applied only when its value is truthy. */
  predicate Active(filters: map<string, Value>, key: string) {
    Truthy(FilterValue(filters, key))
  }

  /** `_get_tier_condition(column, tier)`: the band a known tier label selects, or None for the
      empty condition an unknown label yields. */
  function TierCondition(tier: Value): (b: Option<Band>)
    ensures b.Some? <==> exists i :: 0 <= i < |Tiers| && tier == Text(Tiers[i].name)
    ensures b.Some? ==> b.value in Tiers && tier == Text(b.value.name)
  {
    if tier.Text? then TierCondition'(Tiers, tier.s) else None
  }

  function TierCondition'(bands: seq<Band>, name: string): (b: Option<Band>)
    ensures b.Some? <==> exists i :: 0 <= i < |bands| && bands[i].name == name
    ensures b.Some? ==> b.value in bands && b.value.name == name
    decreases |bands|
  {
    if |bands| == 0 then None
    else if bands[0].name == name then Some(bands[0])
    else
      var b := TierCondition'(bands[1..], name);
      assert forall i :: 1 <= i < |bands| ==> bands[i] == bands[1..][i - 1];
      b
  }

  /** The amount satisfies the SQL text of a tier condition (`>= low` and, unless unbounded, `< high`). */
  predicate TierHolds(cond: Option<Band>, amount: real) {
    cond.None? || InBand(cond.value, amount)
  }

  /** For a non-negative amount, the condition of a known label holds exactly when `get_tier`
      classifies the amount under that label, so exactly one label's condition holds. */
  lemma TierConditionAgreesWithGetTier(i: nat, amount: real)
    requires i < |Tiers| && amount >= 0.0
    ensures TierCondition(Text(Tiers[i].name)) == Some(Tiers[i])
    ensures InBand(Tiers[i], amount) <==> GetTier(amount) == Tiers[i].name
  {
    TiersContiguous();
    BandsPartition(amount);
    var j := BandIndex(amount);
    assert GetTier(amount) == Tiers[j].name;
  }

  /** An unknown or non-text tier value adds no condition. */
  lemma TierConditionUnknown(tier: Value, amount: real)
    requires forall i :: 0 <= i < |Tiers| ==> tier != Text(Tiers[i].name)
    ensures TierHolds(TierCondition(tier), amount)
  {
  }

  /** The query reads a per-year column: an MD filter, or a tier filter with a known label. */
  predicate ReadsYearColumn(filters: map<string, Value>) {
    || Active(filters, "md_qualified")
    || (Active(filters, "fyp_tier") && TierCondition(FilterValue(filters, "fyp_tier")).Some?)
    || (Active(filters, "ape_tier") && TierCondition(FilterValue(filters, "ape_tier")).Some?)
  }

  /** Every equality filter with a truthy value holds for the row. */
  predicate EqualitiesHold(row: AgentRow, filters: map<string, Value>) {
    forall k :: k in EqualityKeys && Active(filters, k) ==> SqlEquals(ColumnOf(row, k).value, FilterValue(filters, k))
  }

  /** The MD filter: `符合` selects flag 1, any other truthy value flag 0. */
  predicate MdHolds(row: AgentRow, filters: map<string, Value>, year: int)
    requires year in Years
  {
    Active(filters, "md_qualified") ==>
      row.mdQualified.Column(year).value == (if FilterValue(filters, "md_qualified") == Text("符合") then 1 else 0)
  }

  predicate TiersHold(row: AgentRow, filters: map<string, Value>, year: int)
    requires year in Years
  {
    && (Active(filters, "fyp_tier") ==> TierHolds(TierCondition(FilterValue(filters, "fyp_tier")), row.fyp.Column(year).value))
    && (Active(filters, "ape_tier") ==> TierHolds(TierCondition(FilterValue(filters, "ape_tier")), row.ape.Column(year).value))
  }

  /** The WHERE clause `get_agents` builds, evaluated on one row. */
  predicate Selects(row: AgentRow, filters: map<string, Value>, year: int)
    requires year in Years
  {
    EqualitiesHold(row, filters) && MdHolds(row, filters, year) && TiersHold(row, filters, year)
  }

  /** The WHERE clause as the row predicate a table scan applies. */
  function Selector(filters: map<string, Value>, year: int): AgentRow -> bool
    requires year in Years
  {
    row => Selects(row, filters, year)
  }

  /** The WHERE clause with only its equality filters, all a query for a year without columns can keep. */
  function EqualitySelector(filters: map<string, Value>): AgentRow -> bool {
    row => EqualitiesHold(row, filters)
  }

  lemma {:induction false} FilterSortedById(t: seq<AgentRow>, p: AgentRow -> bool)
    requires SortedById(t)
    ensures SortedById(Filter(t, p))
    decreases |t|
  {
    if |t| > 0 {
      var n := |t| - 1;
      var f, r := Filter(t[..n], p), Filter(t, p);
      assert SortedById(f) by {
        FilterSortedById(t[..n], p);
      }
      assert r == f + (if p(t[n]) then [t[n]] else []);
      if p(t[n]) {
        forall i | 0 <= i < |f| ensures f[i].agentId < t[n].agentId {
          assert f[i] in t[..n];
          var k :| 0 <= k < n && t[..n][k] == f[i];
        }
        forall i, j | 0 <= i < j < |r| ensures r[i].agentId < r[j].agentId {
          assert r[i] == f[i];
        }
      }
    }
  }

  /** The year `get_agents(filters)` reads the per-year columns at when the caller gives none. */
  const DefaultYear: int := 2024

  /** `get_agents(filters, year)`: the rows satisfying every applicable filter, in agent_id
      order; an error when a filter needs a per-year column the table does not have. */
  function GetAgents(t: seq<AgentRow>, filters: map<string, Value>, year: int): (r: Result<seq<AgentRow>, QueryError>)
    requires SortedById(t)
    ensures r.Err? <==> ReadsYearColumn(filters) && year !in Years
    ensures r.Ok? && year in Years ==> forall i :: 0 <= i < |t| ==> (t[i] in r.value <==> Selects(t[i], filters, year))
    ensures r.Ok? && year !in Years ==> forall i :: 0 <= i < |t| ==> (t[i] in r.value <==> EqualitiesHold(t[i], filters))
    ensures r.Ok? ==> SortedById(r.value) && |r.value| <= |t| && forall i :: 0 <= i < |r.value| ==> r.value[i] in t
  {
    if year in Years then
      FilterSortedById(t, Selector(filters, year));
      Ok(Filter(t, Selector(filters, year)))
    else if ReadsYearColumn(filters) then
      Err(NoSuchColumn(if Active(filters, "md_qualified") then "md_qualified_" + IntToString(year)
                       else if Active(filters, "fyp_tier") && TierCondition(FilterValue(filters, "fyp_tier")).Some?
                       then "fyp_" + IntToString(year)
                       else "ape_" + IntToString(year)))
    else
      FilterSortedById(t, EqualitySelector(filters));
      Ok(Filter(t, EqualitySelector(filters)))
  }

  /** With no filters every row comes back. */
  lemma GetAgentsNoFilters(t: seq<AgentRow>, year: int)
    requires SortedById(t) && year in Years
    ensures GetAgents(t, map[], year).Ok?
    ensures forall i :: 0 <= i < |t| ==> t[i] in GetAgents(t, map[], year).value
  {
  }

  /** A falsy filter value (None, `""`, 0) imposes nothing: the result is that of leaving the key out. */
  lemma GetAgentsFalsyIgnored(t: seq<AgentRow>, filters: map<string, Value>, year: int, key: string, v: Value)
    requires SortedById(t) && year in Years && !Truthy(v)
    ensures GetAgents(t, filters[key := v], year) == GetAgents(t, filters - {key}, year)
  {
    var f1, f2 := filters[key := v], filters - {key};
    assert forall k :: Active(f1, k) <==> Active(f2, k);
    assert forall k :: Active(f1, k) ==> FilterValue(f1, k) == FilterValue(f2, k);
    assert forall row :: Selects(row, f1, year) <==> Selects(row, f2, year);
    FilterCongruent(t, Selector(f1, year), Selector(f2, year));
  }

  /** Keys that are not filters of `get_agents` (such as `education`) are never applied. */
  lemma GetAgentsIgnoresOtherKeys(t: seq<AgentRow>, filters: map<string, Value>, year: int, key: string, v: Value)
    requires SortedById(t) && year in Years
    requires key !in EqualityKeys && key !in {"md_qualified", "fyp_tier", "ape_tier"}
    ensures GetAgents(t, filters[key := v], year) == GetAgents(t, filters - {key}, year)
  {
    var f1, f2 := filters[key := v], filters - {key};
    assert forall k :: k != key ==> FilterValue(f1, k) == FilterValue(f2, k);
    assert forall row :: Selects(row, f1, year) <==> Selects(row, f2, year);
    FilterCongruent(t, Selector(f1, year), Selector(f2, year));
  }

  /** `get_agents_by_group(group_by, group_value, filters, year)`: `get_agents` with the group
      filter written over `filters[group_by]`. */
  function GetAgentsByGroup(t: seq<AgentRow>, groupBy: string, groupValue: Value, filters: map<string, Value>, year: int)
    : (r: Result<seq<AgentRow>, QueryError>)
    requires SortedById(t)
    ensures r.Err? <==> ReadsYearColumn(filters[groupBy := groupValue]) && year !in Years
    ensures r.Ok? && year in Years ==>
      forall i :: 0 <= i < |t| ==> (t[i] in r.value <==> Selects(t[i], filters[groupBy := groupValue], year))
    ensures r.Ok? && year !in Years ==>
      forall i :: 0 <= i < |t| ==> (t[i] in r.value <==> EqualitiesHold(t[i], filters[groupBy := groupValue]))
    ensures r.Ok? ==> SortedById(r.value)
    ensures r.Ok? && year in Years && groupBy in EqualityKeys && Truthy(groupValue) ==>
      forall i :: 0 <= i < |r.value| ==> SqlEquals(ColumnOf(r.value[i], groupBy).value, groupValue)
    ensures r.Ok? ==> forall i :: 0 <= i < |r.value| ==> r.value[i] in t
  {
    var f := filters[groupBy := groupValue];
    var r := GetAgents(t, f, year);
    assert Active(f, groupBy) <==> Truthy(groupValue);
    r
  }

  /** Grouping on a key `get_agents` does not know (`education`, `years`, ...) narrows nothing. */
  lemma GetAgentsByGroupUnknownKey(t: seq<AgentRow>, groupBy: string, groupValue: Value, filters: map<string, Value>, year: int)
    requires SortedById(t) && year in Years
    requires groupBy !in EqualityKeys && groupBy !in {"md_qualified", "fyp_tier", "ape_tier"}
    ensures GetAgentsByGroup(t, groupBy, groupValue, filters, year) == GetAgents(t, filters - {groupBy}, year)
  {
    GetAgentsIgnoresOtherKeys(t, filters, year, groupBy, groupValue);
  }

  // ---------------------------------------------------------------- points summary

  const Granted: string := "积分发放"
  const Deducted: string := "积分扣减"

  /** `amount` of a grant row, 0 otherwise. */
  function GrantPart(p: PointRow): real {
    if p.transactionType == Some(Granted) then p.amount else 0.0
  }

  /** `ABS(amount)` of a deduction row, 0 otherwise. */
  function UsePart(p: PointRow): (u: real)
    ensures u >= 0.0
  {
    if p.transactionType == Some(Deducted) then (if p.amount < 0.0 then -p.amount else p.amount) else 0.0
  }

  /** `WHERE transaction_year = ? [AND agent_id IN (...)]`; an empty id list restricts nothing. */
  predicate PointSelected(p: PointRow, ids: seq<int>, year: int) {
    p.transactionYear == Some(year) && (|ids| == 0 || p.agentId in ids)
  }

  datatype PointsTotals = PointsTotals(granted: real, used: real, net: real)

  /** Reference sums for one agent: Σ of the grants and Σ of the absolute deductions of its selected rows. */
  function GrantedOf(ps: seq<PointRow>, ids: seq<int>, year: int, id: int): real
    decreases |ps|
  {
    if |ps| == 0 then 0.0
    else
      var p := ps[|ps| - 1];
      GrantedOf(ps[..|ps| - 1], ids, year, id) + (if PointSelected(p, ids, year) && p.agentId == id then GrantPart(p) else 0.0)
  }

  function UsedOf(ps: seq<PointRow>, ids: seq<int>, year: int, id: int): (u: real)
    ensures u >= 0.0
    decreases |ps|
  {
    if |ps| == 0 then 0.0
    else
      var p := ps[|ps| - 1];
      UsedOf(ps[..|ps| - 1], ids, year, id) + (if PointSelected(p, ids, year) && p.agentId == id then UsePart(p) else 0.0)
  }

  /** The `GROUP BY agent_id` accumulation: (Σ granted, Σ used) per agent with a selected row. */
  function PointsGroups(ps: seq<PointRow>, ids: seq<int>, year: int): map<int, (real, real)>
    decreases |ps|
  {
    if |ps| == 0 then map[]
    else
      var m := PointsGroups(ps[..|ps| - 1], ids, year);
      var p := ps[|ps| - 1];
      if !PointSelected(p, ids, year) then m
      else
        var acc := if p.agentId in m then m[p.agentId] else (0.0, 0.0);
        m[p.agentId := (acc.0 + GrantPart(p), acc.1 + UsePart(p))]
  }

  lemma {:induction false} PointsGroupsAgree(ps: seq<PointRow>, ids: seq<int>, year: int)
    ensures forall id :: id in PointsGroups(ps, ids, year) <==> exists i :: 0 <= i < |ps| && PointSelected(ps[i], ids, year) && ps[i].agentId == id
    ensures forall id :: id in PointsGroups(ps, ids, year) ==>
      PointsGroups(ps, ids, year)[id] == (GrantedOf(ps, ids, year, id), UsedOf(ps, ids, year, id))
    ensures forall id :: id !in PointsGroups(ps, ids, year) ==> GrantedOf(ps, ids, year, id) == 0.0 && UsedOf(ps, ids, year, id) == 0.0
    decreases |ps|
  {
    if |ps| > 0 {
      var n := |ps| - 1;
      PointsGroupsAgree(ps[..n], ids, year);
      assert forall i :: 0 <= i < n ==> ps[..n][i] == ps[i];
    }
  }

  /** `get_points_summary(agent_ids, year)`: per agent, the granted total, the used total and their difference. */
  function PointsSummary(ps: seq<PointRow>, ids: seq<int>, year: int): (m: map<int, PointsTotals>)
    ensures forall id :: id in m <==> exists i :: 0 <= i < |ps| && PointSelected(ps[i], ids, year) && ps[i].agentId == id
    ensures forall id :: id in m ==>
      && m[id].granted == GrantedOf(ps, ids, year, id)
      && m[id].used == UsedOf(ps, ids, year, id)
      && m[id].used >= 0.0
      && m[id].net == m[id].granted - m[id].used
  {
    var g := PointsGroups(ps, ids, year);
    PointsGroupsAgree(ps, ids, year);
    map id | id in g :: PointsTotals(g[id].0, g[id].1, g[id].0 - g[id].1)
  }

  /** Rows of other transaction types add nothing to either total. */
  lemma {:induction false} OtherTypesIgnored(ps: seq<PointRow>, ids: seq<int>, year: int, id: int)
    requires forall i :: 0 <= i < |ps| ==> ps[i].transactionType != Some(Granted) && ps[i].transactionType != Some(Deducted)
    ensures GrantedOf(ps, ids, year, id) == 0.0 && UsedOf(ps, ids, year, id) == 0.0
    decreases |ps|
  {
    if |ps| > 0 {
      OtherTypesIgnored(ps[..|ps| - 1], ids, year, id);
    }
  }

  // ---------------------------------------------------------------- social-security summary

  /** `service_month LIKE '<year>%' [AND matched_agent_id IN (...)]`. */
  predicate SSSelected(r: SSRow, ids: seq<int>, year: int) {
    && r.serviceMonth.Some? && IntToString(year) <= r.serviceMonth.value
    && (|ids| == 0 || (r.matchedAgentId.Some? && r.matchedAgentId.value in ids))
  }

  /** Reference sum: Σ company_total over the selected rows matched to `key`. */
  function CompanyTotalOf(rs: seq<SSRow>, ids: seq<int>, year: int, key: Option<int>): real
    decreases |rs|
  {
    if |rs| == 0 then 0.0
    else
      var r := rs[|rs| - 1];
      CompanyTotalOf(rs[..|rs| - 1], ids, year, key) + (if SSSelected(r, ids, year) && r.matchedAgentId == key then r.companyTotal else 0.0)
  }

  /** `get_social_security_summary(agent_ids, year)`, accumulated row by row under `GROUP BY
      matched_agent_id` (unmatched rows form the NULL group). */
  function SSSummary(rs: seq<SSRow>, ids: seq<int>, year: int): map<Option<int>, real>
    decreases |rs|
  {
    if |rs| == 0 then map[]
    else
      var m := SSSummary(rs[..|rs| - 1], ids, year);
      var r := rs[|rs| - 1];
      if !SSSelected(r, ids, year) then m
      else m[r.matchedAgentId := (if r.matchedAgentId in m then m[r.matchedAgentId] else 0.0) + r.companyTotal]
  }

  /** Each group of the summary holds the reference sum of its rows, and a group exists exactly
      for the keys some selected row carries. */
  lemma {:induction false} SSSummaryAgrees(rs: seq<SSRow>, ids: seq<int>, year: int)
    ensures forall k :: k in SSSummary(rs, ids, year) <==> exists i :: 0 <= i < |rs| && SSSelected(rs[i], ids, year) && rs[i].matchedAgentId == k
    ensures forall k :: k in SSSummary(rs, ids, year) ==> SSSummary(rs, ids, year)[k] == CompanyTotalOf(rs, ids, year, k)
    ensures forall k :: k !in SSSummary(rs, ids, year) ==> CompanyTotalOf(rs, ids, year, k) == 0.0
    decreases |rs|
  {
    forall k ensures k in SSSummary(rs, ids, year) <==> exists i :: 0 <= i < |rs| && SSSelected(rs[i], ids, year) && rs[i].matchedAgentId == k {
      SSSummaryKeys(rs, ids, year, k);
    }
    forall k ensures k in SSSummary(rs, ids, year) ==> SSSummary(rs, ids, year)[k] == CompanyTotalOf(rs, ids, year, k)
      ensures k !in SSSummary(rs, ids, year) ==> CompanyTotalOf(rs, ids, year, k) == 0.0
    {
      SSSummaryTotals(rs, ids, year, k);
    }
  }

  lemma {:induction false} SSSummaryKeys(rs: seq<SSRow>, ids: seq<int>, year: int, k: Option<int>)
    ensures k in SSSummary(rs, ids, year) <==> exists i :: 0 <= i < |rs| && SSSelected(rs[i], ids, year) && rs[i].matchedAgentId == k
    decreases |rs|
  {
    if |rs| > 0 {
      var n := |rs| - 1;
      var init, last := rs[..n], rs[n];
      var m, sel := SSSummary(init, ids, year), SSSelected(last, ids, year);
      var hit := sel && last.matchedAgentId == k;
      assert k in SSSummary(rs, ids, year) <==> k in m || hit;
      SSSummaryKeys(init, ids, year, k);
      if k in m {
        var i :| 0 <= i < n && SSSelected(init[i], ids, year) && init[i].matchedAgentId == k;
        assert rs[i] == init[i];
      } else if !hit {
        forall i | 0 <= i < |rs| && rs[i].matchedAgentId == k ensures !SSSelected(rs[i], ids, year) {
          if i < n {
            assert init[i] == rs[i];
          }
        }
      }
    }
  }

  lemma {:induction false} SSSummaryTotals(rs: seq<SSRow>, ids: seq<int>, year: int, k: Option<int>)
    ensures k in SSSummary(rs, ids, year) ==> SSSummary(rs, ids, year)[k] == CompanyTotalOf(rs, ids, year, k)
    ensures k !in SSSummary(rs, ids, year) ==> CompanyTotalOf(rs, ids, year, k) == 0.0
    decreases |rs|
  {
    if |rs| > 0 {
      SSSummaryTotals(rs[..|rs| - 1], ids, year, k);
    }
  }

  /** With an id list, the unmatched rows drop out: no NULL group. */
  lemma SSSummaryWithIds(rs: seq<SSRow>, ids: seq<int>, year: int)
    requires |ids| > 0
    ensures None !in SSSummary(rs, ids, year)
  {
    SSSummaryAgrees(rs, ids, year);
  }

  // ---------------------------------------------------------------- save_data

  /** The families of per-year columns of `agents`. */
  datatype YearFamily = IncomeYear | FypYear | ApeYear | FycYear | MdQualifiedYear

  /** A column of `agents` other than `agent_id` and `updated_at`. */
  datatype AgentColumn =
    | PerYear(family: YearFamily, year: int)
    | EducationColumn | RegionColumn | YearsColumn | PersonalLevelColumn | ManagerLevelColumn
    | DirectorLevelColumn | JoinDateColumn | JoinYearColumn | TeamLeaderIdColumn | IsPeerColumn

  /** The table has the per-year columns of the statistics years only. */
  predicate HasColumn(c: AgentColumn) {
    c.PerYear? ==> c.year in Years
  }

  /** A value as SQLite stores it: REAL, INTEGER or TEXT, with None for NULL. */
  datatype Stored = StoredReal(r: real) | StoredInt(i: Option<int>) | StoredText(t: Option<string>)

  /** Column `c` of a stored row. */
  function ColumnValue(row: AgentRow, c: AgentColumn): Stored
    requires HasColumn(c)
  {
    match c
    case PerYear(f, y) =>
      (match f
       case IncomeYear => StoredReal(row.income.Column(y).value)
       case FypYear => StoredReal(row.fyp.Column(y).value)
       case ApeYear => StoredReal(row.ape.Column(y).value)
       case FycYear => StoredReal(row.fyc.Column(y).value)
       case MdQualifiedYear => StoredInt(Some(row.mdQualified.Column(y).value)))
    case EducationColumn => StoredText(row.education)
    case RegionColumn => StoredText(row.region)
    case YearsColumn => StoredInt(row.years)
    case PersonalLevelColumn => StoredText(row.personalLevel)
    case ManagerLevelColumn => StoredText(row.managerLevel)
    case DirectorLevelColumn => StoredText(row.directorLevel)
    case JoinDateColumn => StoredText(row.joinDate)
    case JoinYearColumn => StoredInt(row.joinYear)
    case TeamLeaderIdColumn => StoredInt(row.teamLeaderId)
    case IsPeerColumn => StoredText(row.isPeer)
  }

  /** The `DEFAULT` of each column in `CREATE TABLE agents`: 0 for the amounts and the MD flags,
      NULL for everything else. */
  function ColumnDefault(c: AgentColumn): Stored {
    match c
    case PerYear(f, _) => if f == MdQualifiedYear then StoredInt(Some(0)) else StoredReal(0.0)
    case YearsColumn => StoredInt(None)
    case JoinYearColumn => StoredInt(None)
    case TeamLeaderIdColumn => StoredInt(None)
    case _ => StoredText(None)
  }

  lemma ByYearEqual<T>(x: ByYear<T>, z: ByYear<T>)
    requires forall y :: y in Years ==> x.Column(y) == z.Column(y)
    ensures x == z
  {
    assert x.Column(2022) == z.Column(2022) && x.Column(2023) == z.Column(2023);
    assert x.Column(2024) == z.Column(2024) && x.Column(2025) == z.Column(2025);
  }

  /** The columns are the whole row: two rows with the same id and the same value in every
      column are the same row. */
  lemma ColumnsDetermineRow(a: AgentRow, b: AgentRow)
    requires a.agentId == b.agentId
    requires forall c :: HasColumn(c) ==> ColumnValue(a, c) == ColumnValue(b, c)
    ensures a == b
  {
    forall y | y in Years
      ensures a.income.Column(y) == b.income.Column(y) && a.fyp.Column(y) == b.fyp.Column(y)
      ensures a.ape.Column(y) == b.ape.Column(y) && a.fyc.Column(y) == b.fyc.Column(y)
      ensures a.mdQualified.Column(y) == b.mdQualified.Column(y)
    {
      assert ColumnValue(a, PerYear(IncomeYear, y)) == ColumnValue(b, PerYear(IncomeYear, y));
      assert ColumnValue(a, PerYear(FypYear, y)) == ColumnValue(b, PerYear(FypYear, y));
      assert ColumnValue(a, PerYear(ApeYear, y)) == ColumnValue(b, PerYear(ApeYear, y));
      assert ColumnValue(a, PerYear(FycYear, y)) == ColumnValue(b, PerYear(FycYear, y));
      assert ColumnValue(a, PerYear(MdQualifiedYear, y)) == ColumnValue(b, PerYear(MdQualifiedYear, y));
    }
    ByYearEqual(a.income, b.income);
    ByYearEqual(a.fyp, b.fyp);
    ByYearEqual(a.ape, b.ape);
    ByYearEqual(a.fyc, b.fyc);
    ByYearEqual(a.mdQualified, b.mdQualified);
    assert ColumnValue(a, EducationColumn) == ColumnValue(b, EducationColumn);
    assert ColumnValue(a, RegionColumn) == ColumnValue(b, RegionColumn);
    assert ColumnValue(a, YearsColumn) == ColumnValue(b, YearsColumn);
    assert ColumnValue(a, PersonalLevelColumn) == ColumnValue(b, PersonalLevelColumn);
    assert ColumnValue(a, ManagerLevelColumn) == ColumnValue(b, ManagerLevelColumn);
    assert ColumnValue(a, DirectorLevelColumn) == ColumnValue(b, DirectorLevelColumn);
    assert ColumnValue(a, JoinDateColumn) == ColumnValue(b, JoinDateColumn);
    assert ColumnValue(a, JoinYearColumn) == ColumnValue(b, JoinYearColumn);
    assert ColumnValue(a, TeamLeaderIdColumn) == ColumnValue(b, TeamLeaderIdColumn);
    assert ColumnValue(a, IsPeerColumn) == ColumnValue(b, IsPeerColumn);
  }

  /** The output of the parser that `save_data` stores. Every agent dict of one upload carries
      the same columns, those the sheet has: `agentColumns`. */
  datatype Parsed = Parsed(agents: seq<Agent>, agentColumns: set<AgentColumn>, points: seq<PointRow>,
                           socialSecurity: seq<SSRow>, mapping: OrderedDict.Dict<string, int>)

  datatype Store = Store(agents: seq<AgentRow>, points: seq<PointRow>, socialSecurity: seq<SSRow>, mapping: seq<(string, int)>)

  datatype SaveCounts = SaveCounts(agentsInserted: nat, agentsUpdated: nat, pointsInserted: nat, socialSecurityInserted: nat, mappingInserted: nat)

  /** `1 if agent[key] else 0`. */
  function Flag(b: bool): (f: int)
    ensures f == 0 || f == 1
    ensures f == 1 <==> b
  {
    if b then 1 else 0
  }

  /** The values an agent dict binds: its id, its amounts and texts, the MD flags coerced to 0/1. */
  function ToRow(a: Agent): (r: AgentRow)
    ensures r.agentId == a.agentId && r.fyp == a.fyp && r.fyc == a.fyc && r.income == a.income && r.ape == a.ape
    ensures forall y :: y in Years ==> r.mdQualified.Column(y) == Some(Flag(a.mdQualified.Column(y).value))
  {
    var md := a.mdQualified;
    AgentRecord(a.agentId, a.income, a.fyp, a.ape, a.fyc, a.education, a.region, a.years, a.personalLevel,
                a.managerLevel, a.directorLevel, a.joinDate, a.joinYear, a.teamLeaderId, a.isPeer,
                ByYear(Flag(md.y2022), Flag(md.y2023), Flag(md.y2024), Flag(md.y2025)))
  }

  /** `incoming` where column `c` is listed, `stored` where it is not. */
  function Pick<T>(cols: set<AgentColumn>, c: AgentColumn, incoming: T, stored: T): T {
    if c in cols then incoming else stored
  }

  function PickYears<T>(cols: set<AgentColumn>, f: YearFamily, incoming: ByYear<T>, stored: ByYear<T>): ByYear<T> {
    ByYear(Pick(cols, PerYear(f, 2022), incoming.y2022, stored.y2022), Pick(cols, PerYear(f, 2023), incoming.y2023, stored.y2023),
           Pick(cols, PerYear(f, 2024), incoming.y2024, stored.y2024), Pick(cols, PerYear(f, 2025), incoming.y2025, stored.y2025))
  }

  /** `SET c = ?` for each listed column: a listed column takes the incoming value, every other
      column keeps the stored one. */
  function MergeRow(stored: AgentRow, incoming: AgentRow, cols: set<AgentColumn>): (r: AgentRow)
    ensures r.agentId == stored.agentId
    ensures forall c :: HasColumn(c) ==> ColumnValue(r, c) == if c in cols then ColumnValue(incoming, c) else ColumnValue(stored, c)
  {
    AgentRecord(stored.agentId,
      PickYears(cols, IncomeYear, incoming.income, stored.income),
      PickYears(cols, FypYear, incoming.fyp, stored.fyp),
      PickYears(cols, ApeYear, incoming.ape, stored.ape),
      PickYears(cols, FycYear, incoming.fyc, stored.fyc),
      Pick(cols, EducationColumn, incoming.education, stored.education),
      Pick(cols, RegionColumn, incoming.region, stored.region),
      Pick(cols, YearsColumn, incoming.years, stored.years),
      Pick(cols, PersonalLevelColumn, incoming.personalLevel, stored.personalLevel),
      Pick(cols, ManagerLevelColumn, incoming.managerLevel, stored.managerLevel),
      Pick(cols, DirectorLevelColumn, incoming.directorLevel, stored.directorLevel),
      Pick(cols, JoinDateColumn, incoming.joinDate, stored.joinDate),
      Pick(cols, JoinYearColumn, incoming.joinYear, stored.joinYear),
      Pick(cols, TeamLeaderIdColumn, incoming.teamLeaderId, stored.teamLeaderId),
      Pick(cols, IsPeerColumn, incoming.isPeer, stored.isPeer),
      PickYears(cols, MdQualifiedYear, incoming.mdQualified, stored.mdQualified))
  }

  /** Writing the same columns twice leaves only the second write. */
  lemma MergeTwice(stored: AgentRow, x: AgentRow, y: AgentRow, cols: set<AgentColumn>)
    ensures MergeRow(MergeRow(stored, x, cols), y, cols) == MergeRow(stored, y, cols)
  {
    ColumnsDetermineRow(MergeRow(MergeRow(stored, x, cols), y, cols), MergeRow(stored, y, cols));
  }

  /** What the row `agent_id = id` holds before an upsert: the stored row, or the column defaults
      when there is none. */
  function StoredOrDefault(t: seq<AgentRow>, id: int): (r: AgentRow)
    ensures r.agentId == id
    ensures FindRow(t, id).Some? ==> r == FindRow(t, id).value
    ensures FindRow(t, id).None? ==> forall c :: HasColumn(c) ==> ColumnValue(r, c) == ColumnDefault(c)
  {
    match FindRow(t, id)
    case Some(row) => row
    case None => ToRow(NewAgent(id))
  }

  /** `row` written at its place in id order, replacing the row with its id if there is one. */
  function PutRow(t: seq<AgentRow>, row: AgentRow): (t': seq<AgentRow>)
    requires SortedById(t)
    ensures SortedById(t')
    ensures forall i :: 0 <= i < |t'| ==> t'[i] == row || t'[i] in t
    ensures row in t'
    ensures forall i :: 0 <= i < |t| && t[i].agentId != row.agentId ==> t[i] in t'
    ensures forall i :: 0 <= i < |t'| && t'[i] != row ==> t'[i].agentId != row.agentId
    decreases |t|
  {
    if |t| == 0 then [row]
    else if t[0].agentId == row.agentId then [row] + t[1..]
    else if row.agentId < t[0].agentId then [row] + t
    else
      var rest := PutRow(t[1..], row);
      assert forall i :: 1 <= i < |t| ==> t[i] == t[1..][i - 1];
      [t[0]] + rest
  }

  lemma PutRowFind(t: seq<AgentRow>, row: AgentRow, id: int)
    requires SortedById(t)
    ensures FindRow(PutRow(t, row), id) == if id == row.agentId then Some(row) else FindRow(t, id)
  {
    var t' := PutRow(t, row);
    if id == row.agentId {
      FindUnique(t', row);
    } else {
      var r := FindRow(t, id);
      if r.Some? {
        var i :| 0 <= i < |t| && t[i] == r.value;
        FindUnique(t', t[i]);
      }
    }
  }

  /** In a table sorted by id, a row is what a lookup of its id finds. */
  lemma FindUnique(t: seq<AgentRow>, row: AgentRow)
    requires SortedById(t) && row in t
    ensures FindRow(t, row.agentId) == Some(row)
  {
    var r := FindRow(t, row.agentId);
    var i :| 0 <= i < |t| && t[i] == row;
    var j :| 0 <= j < |t| && t[j] == r.value;
    assert i == j;
  }

  /** `INSERT ... ON CONFLICT(agent_id) DO UPDATE SET` for an agent dict carrying the columns
      `cols`: the agent's row holds the dict's value in each listed column and keeps what it held
      (the column default, for a new id) in every other; every other id keeps its row. */
  function Upsert(t: seq<AgentRow>, a: Agent, cols: set<AgentColumn>): (t': seq<AgentRow>)
    requires SortedById(t)
    ensures SortedById(t')
    ensures FindRow(t', a.agentId).Some?
    ensures forall c :: HasColumn(c) ==> (ColumnValue(FindRow(t', a.agentId).value, c) ==
      if c in cols then ColumnValue(ToRow(a), c) else ColumnValue(StoredOrDefault(t, a.agentId), c))
    ensures forall id :: id != a.agentId ==> FindRow(t', id) == FindRow(t, id)
  {
    var row := MergeRow(StoredOrDefault(t, a.agentId), ToRow(a), cols);
    PutRowFindAll(t, row);
    PutRow(t, row)
  }

  lemma PutRowFindAll(t: seq<AgentRow>, row: AgentRow)
    requires SortedById(t)
    ensures forall id :: FindRow(PutRow(t, row), id) == if id == row.agentId then Some(row) else FindRow(t, id)
  {
    forall id ensures FindRow(PutRow(t, row), id) == if id == row.agentId then Some(row) else FindRow(t, id) {
      PutRowFind(t, row, id);
    }
  }

  /** Looking up the upserted id finds the stored row merged with the agent's listed columns; any
      other id finds what it found before. */
  lemma UpsertFind(t: seq<AgentRow>, a: Agent, cols: set<AgentColumn>, id: int)
    requires SortedById(t)
    ensures FindRow(Upsert(t, a, cols), id) ==
      if id == a.agentId then Some(MergeRow(StoredOrDefault(t, id), ToRow(a), cols)) else FindRow(t, id)
  {
    PutRowFind(t, MergeRow(StoredOrDefault(t, a.agentId), ToRow(a), cols), id);
  }

  /** The agents of `agents` upserted one after another, each with the sheet's columns. */
  function UpsertAll(t: seq<AgentRow>, agents: seq<Agent>, cols: set<AgentColumn>): (t': seq<AgentRow>)
    requires SortedById(t)
    ensures SortedById(t')
    decreases |agents|
  {
    if |agents| == 0 then t else Upsert(UpsertAll(t, agents[..|agents| - 1], cols), agents[|agents| - 1], cols)
  }

  /** The last agent in `agents` with id `id`. */
  function LastAgent(agents: seq<Agent>, id: int): Option<Agent>
    decreases |agents|
  {
    if |agents| == 0 then None
    else if agents[|agents| - 1].agentId == id then Some(agents[|agents| - 1])
    else LastAgent(agents[..|agents| - 1], id)
  }

  /** Last parsed row wins in the sheet's columns: after the upserts an uploaded id holds its
      stored row (or the defaults) merged with its last parsed agent, and an id the upload does
      not mention keeps its stored row. */
  lemma {:induction false} UpsertAllFind(t: seq<AgentRow>, agents: seq<Agent>, cols: set<AgentColumn>, id: int)
    requires SortedById(t)
    ensures FindRow(UpsertAll(t, agents, cols), id) ==
      match LastAgent(agents, id)
      case Some(a) => Some(MergeRow(StoredOrDefault(t, id), ToRow(a), cols))
      case None => FindRow(t, id)
    decreases |agents|
  {
    if |agents| > 0 {
      var n := |agents| - 1;
      var before := UpsertAll(t, agents[..n], cols);
      assert UpsertAll(t, agents, cols) == Upsert(before, agents[n], cols);
      UpsertAllFind(t, agents[..n], cols, id);
      UpsertFind(before, agents[n], cols, id);
      if agents[n].agentId == id {
        assert LastAgent(agents, id) == Some(agents[n]);
        var merged := MergeRow(StoredOrDefault(before, id), ToRow(agents[n]), cols);
        assert FindRow(UpsertAll(t, agents, cols), id) == Some(merged);
        match LastAgent(agents[..n], id)
        case Some(a) =>
          assert StoredOrDefault(before, id) == MergeRow(StoredOrDefault(t, id), ToRow(a), cols);
          MergeTwice(StoredOrDefault(t, id), ToRow(a), ToRow(agents[n]), cols);
        case None =>
          assert StoredOrDefault(before, id) == StoredOrDefault(t, id);
      } else {
        assert LastAgent(agents, id) == LastAgent(agents[..n], id);
      }
    }
  }

  /** Mapping rows are unique on both `pe_id` (PRIMARY KEY) and `uid` (UNIQUE). */
  ghost predicate MappingUnique(m: seq<(string, int)>) {
    forall i, j :: 0 <= i < j < |m| ==> m[i].0 != m[j].0 && m[i].1 != m[j].1
  }

  /** `INSERT OR REPLACE INTO id_mapping`: every row clashing on either unique column is deleted,
      then the new row is inserted. */
  function Replace(m: seq<(string, int)>, pe: string, uid: int): (m': seq<(string, int)>)
    requires MappingUnique(m)
    ensures MappingUnique(m')
    ensures (pe, uid) in m'
    ensures forall e :: e in m' <==> e == (pe, uid) || (e in m && e.0 != pe && e.1 != uid)
  {
    var keep := (e: (string, int)) => e.0 != pe && e.1 != uid;
    FilterUnique(m, keep);
    Filter(m, keep) + [(pe, uid)]
  }

  lemma {:induction false} FilterUnique(m: seq<(string, int)>, p: ((string, int)) -> bool)
    requires MappingUnique(m)
    ensures MappingUnique(Filter(m, p))
    ensures forall e :: e in Filter(m, p) <==> e in m && p(e)
    decreases |m|
  {
    if |m| > 0 {
      var n := |m| - 1;
      FilterUnique(m[..n], p);
      var f := Filter(m[..n], p);
      assert forall i :: 0 <= i < |f| ==> f[i] in m[..n];
      assert m == m[..n] + [m[n]];
    }
  }

  function ReplaceAll(m: seq<(string, int)>, entries: OrderedDict.Dict<string, int>): (m': seq<(string, int)>)
    requires MappingUnique(m)
    ensures MappingUnique(m')
    ensures |entries| > 0 ==> entries[|entries| - 1] in m'
    decreases |entries|
  {
    if |entries| == 0 then m
    else
      var e := entries[|entries| - 1];
      Replace(ReplaceAll(m, entries[..|entries| - 1]), e.0, e.1)
  }

  /** No entry after position `i` clashes with `e` on either column, so none of the later
      replaces deletes `e`. */
  ghost predicate ClearAfter(entries: seq<(string, int)>, i: int, e: (string, int)) {
    forall j :: 0 <= j < |entries| && i < j ==> entries[j].0 != e.0 && entries[j].1 != e.1
  }

  /** `e` is an entry that no later entry clashes with. */
  ghost predicate SurvivesAsEntry(entries: seq<(string, int)>, e: (string, int)) {
    exists i :: 0 <= i < |entries| && entries[i] == e && ClearAfter(entries, i, e)
  }

  /** Appending an entry other than `e` keeps `e` clear exactly when the new entry does not clash
      with it. */
  lemma SurvivesAsEntryLast(entries: seq<(string, int)>, e: (string, int))
    requires |entries| > 0 && entries[|entries| - 1] != e
    ensures var n := |entries| - 1; var x := entries[n];
      && (ClearAfter(entries, -1, e) <==> ClearAfter(entries[..n], -1, e) && x.0 != e.0 && x.1 != e.1)
      && (SurvivesAsEntry(entries, e) <==> SurvivesAsEntry(entries[..n], e) && x.0 != e.0 && x.1 != e.1)
  {
    var n := |entries| - 1;
    var es, x := entries[..n], entries[n];
    assert forall j :: 0 <= j < n ==> es[j] == entries[j];
    forall i | -1 <= i < n
      ensures ClearAfter(entries, i, e) <==> ClearAfter(es, i, e) && x.0 != e.0 && x.1 != e.1
    {
    }
    if SurvivesAsEntry(entries, e) {
      var i :| 0 <= i < |entries| && entries[i] == e && ClearAfter(entries, i, e);
      assert i < n && es[i] == e;
    }
    if SurvivesAsEntry(es, e) && x.0 != e.0 && x.1 != e.1 {
      var i :| 0 <= i < |es| && es[i] == e && ClearAfter(es, i, e);
      assert entries[i] == e;
    }
  }

  /** What the replaces leave: an entry survives iff no later entry clashes with it, and an old
      mapping row iff no entry clashes with it. */
  lemma {:induction false} ReplaceAllMembers(m: seq<(string, int)>, entries: OrderedDict.Dict<string, int>, e: (string, int))
    requires MappingUnique(m)
    ensures e in ReplaceAll(m, entries) <==> SurvivesAsEntry(entries, e) || (e in m && ClearAfter(entries, -1, e))
    decreases |entries|
  {
    if |entries| > 0 {
      var n := |entries| - 1;
      var x := entries[n];
      ReplaceAllMembers(m, entries[..n], e);
      assert ReplaceAll(m, entries) == Replace(ReplaceAll(m, entries[..n]), x.0, x.1);
      if e == x {
        assert ClearAfter(entries, n, e);
      } else {
        SurvivesAsEntryLast(entries, e);
      }
    }
  }

  /** The mapping after a save. The pe_ids of the parsed dict are distinct, so a parsed pair is
      stored iff no later parsed pair has its uid; an older row not among the parsed pairs stays
      iff no parsed pair has its pe_id or its uid. */
  lemma SaveDataMapping(s: Store, p: Parsed)
    requires SortedById(s.agents) && MappingUnique(s.mapping)
    requires OrderedDict.UniqueKeys(p.mapping)
    ensures var after, pm := SaveData(s, p).0.mapping, p.mapping;
      && (forall i :: 0 <= i < |pm| ==> (pm[i] in after <==> forall j :: i < j < |pm| ==> pm[j].1 != pm[i].1))
      && (forall e :: e in s.mapping && e !in pm ==>
            (e in after <==> forall j :: 0 <= j < |pm| ==> pm[j].0 != e.0 && pm[j].1 != e.1))
  {
    var after, pm := SaveData(s, p).0.mapping, p.mapping;
    assert after == ReplaceAll(s.mapping, pm);
    forall i | 0 <= i < |pm|
      ensures pm[i] in after <==> forall j :: i < j < |pm| ==> pm[j].1 != pm[i].1
    {
      ReplaceAllMembers(s.mapping, pm, pm[i]);
      assert !ClearAfter(pm, -1, pm[i]);
      if SurvivesAsEntry(pm, pm[i]) {
        var i' :| 0 <= i' < |pm| && pm[i'] == pm[i] && ClearAfter(pm, i', pm[i]);
        assert i' == i;
      }
      if forall j :: i < j < |pm| ==> pm[j].1 != pm[i].1 {
        assert ClearAfter(pm, i, pm[i]);
      }
    }
    forall e | e in s.mapping && e !in pm
      ensures e in after <==> forall j :: 0 <= j < |pm| ==> pm[j].0 != e.0 && pm[j].1 != e.1
    {
      ReplaceAllMembers(s.mapping, pm, e);
    }
  }

  /** `save_data(parsed)`: the new store and the counts it reports. */
  function SaveData(s: Store, p: Parsed): (r: (Store, SaveCounts))
    requires SortedById(s.agents) && MappingUnique(s.mapping)
    ensures SortedById(r.0.agents) && MappingUnique(r.0.mapping)
    ensures r.0.points == s.points + p.points
    ensures r.0.socialSecurity == s.socialSecurity + p.socialSecurity
    ensures forall i :: 0 <= i < |p.agents| ==> FindRow(r.0.agents, p.agents[i].agentId).Some?
    ensures r.1 == SaveCounts(|p.agents|, 0, |p.points|, |p.socialSecurity|, |p.mapping|)
  {
    var agents := UpsertAll(s.agents, p.agents, p.agentColumns);
    forall i | 0 <= i < |p.agents| ensures FindRow(agents, p.agents[i].agentId).Some? {
      UpsertAllFind(s.agents, p.agents, p.agentColumns, p.agents[i].agentId);
      LastAgentFound(p.agents, i);
    }
    (Store(agents, s.points + p.points, s.socialSecurity + p.socialSecurity, ReplaceAll(s.mapping, p.mapping)),
     SaveCounts(|p.agents|, 0, |p.points|, |p.socialSecurity|, |p.mapping|))
  }

  lemma {:induction false} LastAgentFound(agents: seq<Agent>, i: nat)
    requires i < |agents|
    ensures LastAgent(agents, agents[i].agentId).Some?
    decreases |agents|
  {
    if i < |agents| - 1 && agents[|agents| - 1].agentId != agents[i].agentId {
      LastAgentFound(agents[..|agents| - 1], i);
    }
  }

  /** After a save, an uploaded id's row holds its last parsed record's value in each column the
      sheet has and keeps its stored value (the column default, for a new id) in every other;
      rows for ids absent from the upload are untouched. */
  lemma SaveDataAgents(s: Store, p: Parsed, id: int)
    requires SortedById(s.agents) && MappingUnique(s.mapping)
    ensures var after := FindRow(SaveData(s, p).0.agents, id);
      match LastAgent(p.agents, id)
      case None => after == FindRow(s.agents, id)
      case Some(a) =>
        && after.Some? && after.value.agentId == id
        && forall c :: HasColumn(c) ==> (ColumnValue(after.value, c) ==
             if c in p.agentColumns then ColumnValue(ToRow(a), c) else ColumnValue(StoredOrDefault(s.agents, id), c))
  {
    UpsertAllFind(s.agents, p.agents, p.agentColumns, id);
  }
}
