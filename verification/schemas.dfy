/** The agent record and the FYP/APE tier bands of backend/models/schemas.py. */
module Schemas {
  import opened Wrappers

  /** A loosely typed scalar as it reaches the core from a JSON body or a parsed spreadsheet
      cell: `None`, a string or an integer (Python's `True`/`False` are the integers 1/0). */
  datatype Value = Null | Text(s: string) | Int(i: int)

  /** Python truthiness: `None`, `""` and `0` are false, everything else is true. */
  predicate Truthy(v: Value) {
    match v
    case Null => false
    case Text(s) => s != ""
    case Int(i) => i != 0
  }

  /** The statistics years; every per-year column exists for exactly these. */
  const Years: seq<int> := [2022, 2023, 2024, 2025]

  /** One value per statistics year, the `<name>_2022` … `<name>_2025` columns of a row. */
  datatype ByYear<T> = ByYear(y2022: T, y2023: T, y2024: T, y2025: T) {

    /** The `<name>_<year>` column, or None when the row has no column for that year. */
    function Column(year: int): (r: Option<T>)
      ensures r.Some? <==> year in Years
    {
      if year == 2022 then Some(y2022)
      else if year == 2023 then Some(y2023)
      else if year == 2024 then Some(y2024)
      else if year == 2025 then Some(y2025)
      else None
    }
  }

  /** `row.get(f'<name>_{year}', 0) or 0`: the year's amount, 0 for a year without a column. */
  function Amount(b: ByYear<real>, year: int): real {
    b.Column(year).GetOr(0.0)
  }

  /** The agent record. `M` is the representation of the per-year MD-qualification flags:
      `bool` in the dataclass and the parser output, the 0/1 integer column in the store. */
  datatype AgentRecord<M> = AgentRecord(
    agentId: int,
    income: ByYear<real>,
    fyp: ByYear<real>,
    ape: ByYear<real>,
    fyc: ByYear<real>,
    education: Option<string>,
    region: Option<string>,
    years: Option<int>,
    personalLevel: Option<string>,
    managerLevel: Option<string>,
    directorLevel: Option<string>,
    joinDate: Option<string>,
    joinYear: Option<int>,
    teamLeaderId: Option<int>,
    isPeer: Option<string>,
    mdQualified: ByYear<M>)

  /** The `Agent` dataclass. */
  type Agent = AgentRecord<bool>

  const NoAmounts: ByYear<real> := ByYear(0.0, 0.0, 0.0, 0.0)

  /** `Agent(agent_id=...)`: every other field takes its declared default. */
  function NewAgent(agentId: int): (a: Agent)
    ensures a.agentId == agentId
    ensures forall y :: y in Years ==>
      Amount(a.income, y) == 0.0 && Amount(a.fyp, y) == 0.0 && Amount(a.ape, y) == 0.0 && Amount(a.fyc, y) == 0.0
    ensures forall y :: y in Years ==> a.mdQualified.Column(y) == Some(false)
    ensures a.region.None? && a.education.None? && a.joinDate.None? && a.isPeer.None?
  {
    AgentRecord(agentId, NoAmounts, NoAmounts, NoAmounts, NoAmounts, None, None, None, None, None, None,
                None, None, None, None, ByYear(false, false, false, false))
  }

  // ---------------------------------------------------------------- tiers

  datatype Bound = Finite(v: real) | Infinite

  /** A band `[low, high)` and its name. */
  datatype Band = Band(low: real, high: Bound, name: string)

  predicate InBand(b: Band, v: real) {
    b.low <= v && (b.high.Infinite? || v < b.high.v)
  }

  const TopLabel: string := "50万+"

  /** `FYP_APE_TIERS`, in table order. */
  const Tiers: seq<Band> := [
    Band(0.0, Finite(50000.0), "0-5万"),
    Band(50000.0, Finite(100000.0), "5-10万"),
    Band(100000.0, Finite(300000.0), "10-30万"),
    Band(300000.0, Finite(500000.0), "30-50万"),
    Band(500000.0, Infinite, TopLabel)
  ]

  /** The five bands start at 0, each ends where the next begins, the last is unbounded,
      and the labels are distinct. */
  lemma TiersContiguous()
    ensures |Tiers| == 5 && Tiers[0].low == 0.0 && Tiers[4].high == Infinite
    ensures forall i :: 0 <= i < 4 ==> Tiers[i].high == Finite(Tiers[i + 1].low) && Tiers[i].low < Tiers[i + 1].low
    ensures forall i, j :: 0 <= i < j < 5 ==> Tiers[i].name != Tiers[j].name
  {
  }

  /** The scan of `get_tier` over `bands`: the name of the first band holding `v`, else `50万+`. */
  function FirstBand(bands: seq<Band>, v: real): (name: string)
    ensures name == TopLabel || exists i :: 0 <= i < |bands| && InBand(bands[i], v) && name == bands[i].name
    ensures (forall i :: 0 <= i < |bands| ==> !InBand(bands[i], v)) ==> name == TopLabel
    ensures forall i :: 0 <= i < |bands| && InBand(bands[i], v) && (forall j :: 0 <= j < i ==> !InBand(bands[j], v))
              ==> name == bands[i].name
    decreases |bands|
  {
    if |bands| == 0 then TopLabel
    else if InBand(bands[0], v) then bands[0].name
    else
      var r := FirstBand(bands[1..], v);
      assert forall i :: 1 <= i < |bands| ==> bands[i] == bands[1..][i - 1];
      r
  }

  /** `get_tier(value)`. */
  function GetTier(v: real): (name: string)
    ensures exists i :: 0 <= i < |Tiers| && name == Tiers[i].name
    ensures forall i :: 0 <= i < |Tiers| && InBand(Tiers[i], v) ==> name == Tiers[i].name
    ensures v < 0.0 ==> name == TopLabel
  {
    assert Tiers[4].name == TopLabel;
    FirstBand(Tiers, v)
  }

  /** A non-negative amount lies in exactly one band; a negative one in none. */
  lemma BandsPartition(v: real)
    ensures v >= 0.0 ==> exists i :: 0 <= i < |Tiers| && InBand(Tiers[i], v)
    ensures forall i, j :: 0 <= i < j < |Tiers| && InBand(Tiers[i], v) ==> !InBand(Tiers[j], v)
    ensures v < 0.0 ==> forall i :: 0 <= i < |Tiers| ==> !InBand(Tiers[i], v)
  {
    if v >= 0.0 {
      if v < 50000.0 { assert InBand(Tiers[0], v); }
      else if v < 100000.0 { assert InBand(Tiers[1], v); }
      else if v < 300000.0 { assert InBand(Tiers[2], v); }
      else if v < 500000.0 { assert InBand(Tiers[3], v); }
      else { assert InBand(Tiers[4], v); }
    }
  }

  /** The position of a tier name in the table (5 for a name that is not there). */
  function TierRank(name: string): (r: nat)
    ensures r <= |Tiers|
    ensures r < |Tiers| ==> Tiers[r].name == name
  {
    if name == Tiers[0].name then 0
    else if name == Tiers[1].name then 1
    else if name == Tiers[2].name then 2
    else if name == Tiers[3].name then 3
    else if name == Tiers[4].name then 4
    else 5
  }

  /** The band of a non-negative amount, by direct comparison with the band edges. */
  function BandIndex(v: real): (i: nat)
    requires v >= 0.0
    ensures i < |Tiers| && InBand(Tiers[i], v)
  {
    if v < 50000.0 then 0
    else if v < 100000.0 then 1
    else if v < 300000.0 then 2
    else if v < 500000.0 then 3
    else 4
  }

  lemma TierRankOf(i: nat)
    requires i < |Tiers|
    ensures TierRank(Tiers[i].name) == i
  {
  }

  /** The tier of a non-negative amount never goes down as the amount grows. */
  lemma GetTierMonotone(v1: real, v2: real)
    requires 0.0 <= v1 <= v2
    ensures TierRank(GetTier(v1)) <= TierRank(GetTier(v2))
  {
    var i1, i2 := BandIndex(v1), BandIndex(v2);
    assert GetTier(v1) == Tiers[i1].name;
    assert GetTier(v2) == Tiers[i2].name;
    TierRankOf(i1);
    TierRankOf(i2);
  }

  /** Boundary values belong to the upper band; a negative amount falls through to `50万+`. */
  lemma GetTierBoundaries()
    ensures GetTier(0.0) == "0-5万" && GetTier(50000.0) == "5-10万" && GetTier(500000.0) == TopLabel
    ensures GetTier(-1.0) == TopLabel
  {
    assert InBand(Tiers[0], 0.0);
    assert InBand(Tiers[1], 50000.0);
    assert InBand(Tiers[4], 500000.0);
  }
}
