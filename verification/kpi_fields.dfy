/** The agent dict as the KPI engine of backend/services/kpi_calculator.py reads it: a field by
    name, and the two ways the engine turns a field into a group key. */
module KpiFields {
  import opened Wrappers
  import opened Text
  import opened Schemas
  import opened DataStore

  /** A value of a row dict as Python holds it after the SQLite read. */
  datatype Scalar = NoneValue | TextValue(s: string) | IntValue(i: int) | RealValue(x: real)

  /** `str()` of a float. Python's shortest round-trip rendering is not modelled; the engine only
      needs it when a group dimension names a REAL column or a float the margin loop adds. */
  type FloatText = real -> string

  function OfText(o: Option<string>): Scalar {
    match o
    case None => NoneValue
    case Some(s) => TextValue(s)
  }

  function OfInt(o: Option<int>): Scalar {
    match o
    case None => NoneValue
    case Some(i) => IntValue(i)
  }

  /** The `<name>_<year>` entry of a per-year column family, for the four years the table has. */
  function YearField<T>(b: ByYear<T>, name: string, field: string): Option<T> {
    if field == name + "_2022" then Some(b.y2022)
    else if field == name + "_2023" then Some(b.y2023)
    else if field == name + "_2024" then Some(b.y2024)
    else if field == name + "_2025" then Some(b.y2025)
    else None
  }

  /** `agent.get(field)` on a dict read from the `agents` table (`SELECT *`): the column's value,
      or None when no column has that name. `GROUP_FIELDS` maps every group dimension to itself,
      so the field read is the dimension's own name. */
  function RowField(row: AgentRow, field: string): Option<Scalar> {
    if field == "agent_id" then Some(IntValue(row.agentId))
    else if field == "education" then Some(OfText(row.education))
    else if field == "region" then Some(OfText(row.region))
    else if field == "years" then Some(OfInt(row.years))
    else if field == "personal_level" then Some(OfText(row.personalLevel))
    else if field == "manager_level" then Some(OfText(row.managerLevel))
    else if field == "director_level" then Some(OfText(row.directorLevel))
    else if field == "join_date" then Some(OfText(row.joinDate))
    else if field == "join_year" then Some(OfInt(row.joinYear))
    else if field == "team_leader_id" then Some(OfInt(row.teamLeaderId))
    else if field == "is_peer" then Some(OfText(row.isPeer))
    else if YearField(row.income, "income", field).Some? then Some(RealValue(YearField(row.income, "income", field).value))
    else if YearField(row.fyp, "fyp", field).Some? then Some(RealValue(YearField(row.fyp, "fyp", field).value))
    else if YearField(row.ape, "ape", field).Some? then Some(RealValue(YearField(row.ape, "ape", field).value))
    else if YearField(row.fyc, "fyc", field).Some? then Some(RealValue(YearField(row.fyc, "fyc", field).value))
    else if YearField(row.mdQualified, "md_qualified", field).Some? then Some(IntValue(YearField(row.mdQualified, "md_qualified", field).value))
    else None
  }

  const Unknown: string := "未知"

  /** `str(value)` of a value that is not None. */
  function Str(v: Scalar, floatText: FloatText): string {
    match v
    case NoneValue => "None"
    case TextValue(s) => s
    case IntValue(i) => IntToString(i)
    case RealValue(x) => floatText(x)
  }

  /** Python falsiness of a scalar. */
  predicate Falsy(v: Scalar) {
    match v
    case NoneValue => true
    case TextValue(s) => s == ""
    case IntValue(i) => i == 0
    case RealValue(x) => x == 0.0
  }

  /** The single-dimension key, `agent.get(field, '未知')` with only None replaced by `未知`. */
  function SingleKey(v: Option<Scalar>, floatText: FloatText): (k: string)
    ensures v.None? || v == Some(NoneValue) ==> k == Unknown
    ensures v.Some? && v.value != NoneValue ==> k == Str(v.value, floatText)
  {
    match v
    case None => Unknown
    case Some(NoneValue) => Unknown
    case Some(s) => Str(s, floatText)
  }

  /** The key of the cross, retention and efficiency groupings, `agent.get(field, '未知') or
      '未知'`: every falsy value becomes `未知`. */
  function FalsyKey(v: Option<Scalar>, floatText: FloatText): (k: string)
    ensures v.None? || Falsy(v.value) ==> k == Unknown
    ensures v.Some? && !Falsy(v.value) ==> k == Str(v.value, floatText)
  {
    match v
    case None => Unknown
    case Some(s) => if Falsy(s) then Unknown else Str(s, floatText)
  }

  /** The two key spellings agree except on a present, falsy, non-None value: an empty string or
      a zero stays itself in a single grouping but becomes `未知` everywhere else. */
  lemma SingleAndFalsyKeys(v: Option<Scalar>, floatText: FloatText)
    ensures SingleKey(v, floatText) != FalsyKey(v, floatText) ==> v.Some? && v.value != NoneValue && Falsy(v.value)
    ensures v == Some(TextValue("")) ==> SingleKey(v, floatText) == "" && FalsyKey(v, floatText) == Unknown
    ensures v == Some(IntValue(0)) ==> SingleKey(v, floatText) == "0" && FalsyKey(v, floatText) == Unknown
  {
    if v == Some(IntValue(0)) {
      assert IntToString(0) == NatToString(0) == "0";
    }
  }

  /** `x / d if d > 0 else 0`: the zero-safe ratio every rate of the engine uses. */
  function Ratio(x: real, d: real): (r: real)
    ensures d > 0.0 ==> r * d == x
    ensures d > 0.0 && x == d ==> r == 1.0
    ensures d <= 0.0 ==> r == 0.0
  {
    if d > 0.0 then
      assert x == d ==> x / d == 1.0;
      x / d
    else 0.0
  }

  /** `a.get(f'fyp_{year}', 0) or 0` of a row, as a summand. */
  function FypIn(year: int): AgentRow -> real {
    (a: AgentRow) => Amount(a.fyp, year)
  }

  /** A row's FYP of `year` when it produced in that year, otherwise 0: the summand of a sum
      taken over the year's producers only. */
  function ActiveFypIn(year: int): AgentRow -> real {
    (a: AgentRow) => if Amount(a.fyp, year) > 0.0 then Amount(a.fyp, year) else 0.0
  }

  /** An agent is active in a year when its FYP of that year is positive. */
  function ActiveIn(year: int): AgentRow -> bool {
    (a: AgentRow) => Amount(a.fyp, year) > 0.0
  }

  /** The group key of a row under the falsy-to-`未知` rule. */
  function RowKeyOf(groupBy: string, floatText: FloatText): AgentRow -> string {
    (a: AgentRow) => FalsyKey(RowField(a, groupBy), floatText)
  }
}
