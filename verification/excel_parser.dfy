/** The string helpers and row filters of backend/services/excel_parser.py. Reading the workbook
    itself (pandas) is outside the model: a sheet arrives as rows of `Cell`s. */
module ExcelParser {
  import opened Wrappers
  import opened Text
  import OrderedDict

  /** A spreadsheet cell as pandas hands it over: missing (NaN), text, or a number. */
  datatype Cell = Missing | Str(s: string) | Num(x: real)

  /** Python's `float(text)`: the finite value `text` spells, or None when it raises ValueError
      or spells `inf`/`nan` (values the exact model has no room for, and which `_normalize_agent_id`
      rejects anyway since they are not integers). */
  type FloatParser = string -> Option<real>

  // ---------------------------------------------------------------- agent ids

  predicate EndsWith(s: string, suffix: string) {
    |suffix| <= |s| && s[|s| - |suffix|..] == suffix
  }

  /** `text.replace('.0', '')`: every `.0` removed, scanning left to right without overlaps. */
  function RemoveDotZero(s: string): (r: string)
    ensures |r| <= |s|
    decreases |s|
  {
    if |s| < 2 then s
    else if s[..2] == ".0" then RemoveDotZero(s[2..])
    else [s[0]] + RemoveDotZero(s[1..])
  }

  /** A string without `.` has nothing to remove. */
  lemma {:induction false} RemoveDotZeroNoDot(s: string)
    requires forall i :: 0 <= i < |s| ==> s[i] != '.'
    ensures RemoveDotZero(s) == s
    decreases |s|
  {
    if |s| >= 2 {
      assert s[..2][0] == s[0];
      RemoveDotZeroNoDot(s[1..]);
    }
  }

  /** Removing `.0` from `digits + ".0"` gives back the digits. */
  lemma {:induction false} RemoveDotZeroSuffix(s: string)
    requires forall i :: 0 <= i < |s| ==> s[i] != '.'
    ensures RemoveDotZero(s + ".0") == s
    decreases |s|
  {
    var t := s + ".0";
    if |s| == 0 {
      assert t[..2] == ".0";
      assert t[2..] == "";
    } else {
      assert t[..2][0] == s[0];
      assert t[1..] == s[1..] + ".0";
      RemoveDotZeroSuffix(s[1..]);
    }
  }

  /** `float(text)` landed on an integral value: `int(num)`. */
  function IntegralValue(x: real): Option<int> {
    if x.Floor as real == x then Some(x.Floor) else None
  }

  /** `n` is one reading of the stripped text `t`: its digits, its digits once `.0` is removed,
      or the integral value `float(t)` gives. */
  predicate ReadsAs(t: string, n: int, floatOf: FloatParser) {
    || (IsDigits(t) && n == DigitsValue(t))
    || (EndsWith(t, ".0") && IsDigits(RemoveDotZero(t)) && n == DigitsValue(RemoveDotZero(t)))
    || floatOf(t) == Some(n as real)
  }

  /** `_normalize_agent_id(value)`, where `text` is `str(value)` and None stands for a missing cell. */
  function NormalizeAgentId(text: Option<string>, floatOf: FloatParser): (r: Option<int>)
    ensures text.None? ==> r.None?
    ensures text.Some? && (forall i :: 0 <= i < |text.value| ==> IsSpace(text.value[i])) ==> r.None?
    ensures text.Some? && IsDigits(Strip(text.value)) ==> r == Some(DigitsValue(Strip(text.value)))
    ensures r.Some? ==> text.Some? && ReadsAs(Strip(text.value), r.value, floatOf)
  {
    if text.None? then None
    else
      var t := Strip(text.value);
      if t == "" then None
      else if EndsWith(t, ".0") && IsDigits(RemoveDotZero(t)) then Some(DigitsValue(RemoveDotZero(t)))
      else if IsDigits(t) then Some(DigitsValue(t))
      else match floatOf(t)
        case None => None
        case Some(x) => IntegralValue(x)
  }

  /** An id written as a float in the sheet (`12345.0`), padded with any whitespace `str.strip()`
      removes, comes back as its integer. */
  lemma NormalizeAgentIdDotZero(l: string, digits: string, r: string, floatOf: FloatParser)
    requires IsDigits(digits)
    requires forall i :: 0 <= i < |l| ==> IsSpace(l[i])
    requires forall i :: 0 <= i < |r| ==> IsSpace(r[i])
    ensures NormalizeAgentId(Some(l + digits + ".0" + r), floatOf) == Some(DigitsValue(digits))
  {
    var t := digits + ".0";
    assert forall i :: 0 <= i < |digits| ==> digits[i] != '.';
    RemoveDotZeroSuffix(digits);
    assert t[|t| - 2..] == ".0";
    assert !IsSpace(t[0]) && !IsSpace(t[|t| - 1]);
    assert l + digits + ".0" + r == l + t + r;
    StripPadded(l, t, r);
  }

  /** Text that is not a number by any of the three readings gives None. */
  lemma NormalizeAgentIdNonNumeric(text: string, floatOf: FloatParser)
    requires var t := Strip(text); !IsDigits(t) && !IsDigits(RemoveDotZero(t)) && floatOf(t).None?
    ensures NormalizeAgentId(Some(text), floatOf).None?
  {
  }

  // ---------------------------------------------------------------- regions of bill names

  const Other: string := "其他"

  /** The region names `_extract_region` looks for, in list order. */
  const BillRegions: seq<string> := [
    "北京", "上海", "广州", "深圳", "天津", "重庆",
    "江苏", "浙江", "广东", "山东", "河南", "四川",
    "湖北", "湖南", "河北", "福建", "安徽", "辽宁",
    "陕西", "江西", "云南", "贵州", "山西", "吉林",
    "黑龙江", "海南", "甘肃", "青海", "宁夏", "新疆",
    "西藏", "内蒙古", "广西", "常州", "苏州", "无锡",
    "南京", "杭州", "宁波", "温州", "成都", "武汉"
  ]

  /** `names[i]` is the first of `names` that `s` contains. */
  predicate FirstContainedAt(names: seq<string>, s: string, i: nat)
    requires i < |names|
  {
    Contains(s, names[i]) && forall j :: 0 <= j < i ==> !Contains(s, names[j])
  }

  /** The first of `names` contained in `s`, or `其他`. */
  function FirstContained(names: seq<string>, s: string): (r: string)
    ensures r == Other || r in names
    ensures r != Other ==> Contains(s, r)
    ensures (forall i :: 0 <= i < |names| ==> !Contains(s, names[i])) ==> r == Other
    ensures forall i :: 0 <= i < |names| && FirstContainedAt(names, s, i) ==> r == names[i]
    decreases |names|
  {
    if |names| == 0 then Other
    else if Contains(s, names[0]) then names[0]
    else
      var r := FirstContained(names[1..], s);
      assert forall i :: 1 <= i < |names| ==> names[i] == names[1..][i - 1];
      r
  }

  /** `_extract_region(bill_name)`: the first listed region the bill name mentions, else `其他`. */
  function ExtractRegion(billName: string): (r: string)
    ensures r == Other || r in BillRegions
    ensures r != Other ==> Contains(billName, r)
    ensures (forall i :: 0 <= i < |BillRegions| ==> !Contains(billName, BillRegions[i])) ==> r == Other
    ensures forall i :: 0 <= i < |BillRegions| && FirstContainedAt(BillRegions, billName, i) ==> r == BillRegions[i]
  {
    FirstContained(BillRegions, billName)
  }

  /** A bill name that is exactly a listed region is that region, unless an earlier listed name
      is part of it. */
  lemma ExtractRegionOfName(i: nat)
    requires i < |BillRegions|
    requires forall j :: 0 <= j < i ==> !Contains(BillRegions[i], BillRegions[j])
    ensures ExtractRegion(BillRegions[i]) == BillRegions[i]
  {
    ContainsSameLength(BillRegions[i], BillRegions[i]);
  }

  // ---------------------------------------------------------------- social-security sheet

  /** `_safe_float(value)`: 0 for a missing cell or text that is not a number. */
  function SafeFloat(c: Cell, floatOf: FloatParser): (r: real)
    ensures c.Missing? ==> r == 0.0
    ensures c.Num? ==> r == c.x
    ensures c.Str? ==> r == floatOf(c.s).GetOr(0.0)
  {
    match c
    case Missing => 0.0
    case Num(x) => x
    case Str(s) => floatOf(s).GetOr(0.0)
  }

  /** One record of the social-security sheet. */
  datatype SSRecord = SSRecord(
    sequence: Cell, billName: Cell, name: Cell, uniqueId: Cell, idCard: Cell, clientCode: Cell,
    serviceMonth: Cell, companyTotal: real, personalTotal: real, total: real, region: Option<string>)

  /** Header and footnote rows: a missing first cell, a first cell starting with `注`, or `序号`. */
  predicate IsHeaderRow(row: seq<Cell>)
    requires |row| > 0
  {
    match row[0]
    case Missing => true
    case Str(s) => "注" <= s || s == "序号"
    case Num(_) => false
  }

  /** The record built from a row of at least seven cells; a numeric bill name never mentions a
      region, so it gets `其他`. */
  function RowRecord(row: seq<Cell>, floatOf: FloatParser): (r: SSRecord)
    requires |row| >= 7
    ensures r.name == row[2] && r.serviceMonth == row[6]
    ensures r.companyTotal == SafeFloat(row[|row| - 3], floatOf)
    ensures row[1].Missing? <==> r.region.None?
    ensures row[1].Str? ==> r.region == Some(ExtractRegion(row[1].s))
  {
    SSRecord(row[0], row[1], row[2], row[3], row[4], row[5], row[6],
             SafeFloat(row[|row| - 3], floatOf), SafeFloat(row[|row| - 2], floatOf), SafeFloat(row[|row| - 1], floatOf),
             match row[1]
             case Missing => None
             case Str(s) => Some(ExtractRegion(s))
             case Num(_) => Some(Other))
  }

  /** A data row becomes a record: not a header row, wide enough (a narrower row raises
      IndexError and is skipped), with a name and a positive employer contribution. */
  predicate Kept(row: seq<Cell>, floatOf: FloatParser)
    requires |row| > 0
  {
    !IsHeaderRow(row) && |row| >= 7 && !row[2].Missing? && SafeFloat(row[|row| - 3], floatOf) > 0.0
  }

  /** What one row contributes: its record when it is kept, nothing otherwise. */
  function RowResult(row: seq<Cell>, floatOf: FloatParser): (o: Option<SSRecord>)
    requires |row| > 0
    ensures o.Some? <==> Kept(row, floatOf)
    ensures o.Some? ==> o.value == RowRecord(row, floatOf) && !o.value.name.Missing? && o.value.companyTotal > 0.0
  {
    if Kept(row, floatOf) then Some(RowRecord(row, floatOf)) else None
  }

  /** The positions of the kept rows, in sheet order: increasing, each of a kept row, and every
      kept row listed. */
  function KeptIndices(rows: seq<seq<Cell>>, floatOf: FloatParser): (idx: seq<nat>)
    requires forall i :: 0 <= i < |rows| ==> |rows[i]| > 0
    ensures |idx| <= |rows|
    ensures forall k :: 0 <= k < |idx| ==> idx[k] < |rows| && Kept(rows[idx[k]], floatOf)
    ensures forall k, l :: 0 <= k < l < |idx| ==> idx[k] < idx[l]
    ensures forall j :: 0 <= j < |rows| && Kept(rows[j], floatOf) ==> j in idx
    decreases |rows|
  {
    if |rows| == 0 then []
    else
      var n := |rows| - 1;
      assert forall j :: 0 <= j < n ==> rows[..n][j] == rows[j];
      KeptIndices(rows[..n], floatOf) + (if Kept(rows[n], floatOf) then [n] else [])
  }

  /** The row filter of `_parse_social_security`: one record per kept row, in sheet order, so
      the k-th record is that of the k-th kept row. */
  function ParseSocialSecurity(rows: seq<seq<Cell>>, floatOf: FloatParser): (r: seq<SSRecord>)
    requires forall i :: 0 <= i < |rows| ==> |rows[i]| > 0
    ensures |r| == |KeptIndices(rows, floatOf)|
    ensures forall k :: 0 <= k < |r| ==> r[k] == RowRecord(rows[KeptIndices(rows, floatOf)[k]], floatOf)
    ensures forall i :: 0 <= i < |r| ==> !r[i].name.Missing? && r[i].companyTotal > 0.0
    decreases |rows|
  {
    if |rows| == 0 then []
    else
      var n := |rows| - 1;
      assert forall j :: 0 <= j < n ==> rows[..n][j] == rows[j];
      var prefix := ParseSocialSecurity(rows[..n], floatOf);
      prefix + match RowResult(rows[n], floatOf) case Some(rec) => [rec] case None => []
  }

  /** The records are exactly those of the kept rows: every kept row's record is among them, and
      each of them is the record of some kept row. */
  lemma ParseSocialSecurityMembers(rows: seq<seq<Cell>>, floatOf: FloatParser)
    requires forall i :: 0 <= i < |rows| ==> |rows[i]| > 0
    ensures var r := ParseSocialSecurity(rows, floatOf);
      && |r| <= |rows|
      && (forall i :: 0 <= i < |rows| && Kept(rows[i], floatOf) ==> RowRecord(rows[i], floatOf) in r)
      && (forall k :: 0 <= k < |r| ==> exists j :: 0 <= j < |rows| && Kept(rows[j], floatOf) && r[k] == RowRecord(rows[j], floatOf))
  {
    var r, idx := ParseSocialSecurity(rows, floatOf), KeptIndices(rows, floatOf);
    forall i | 0 <= i < |rows| && Kept(rows[i], floatOf) ensures RowRecord(rows[i], floatOf) in r {
      var k :| 0 <= k < |idx| && idx[k] == i;
      assert r[k] == RowRecord(rows[i], floatOf);
    }
    forall k | 0 <= k < |r| ensures exists j :: 0 <= j < |rows| && Kept(rows[j], floatOf) && r[k] == RowRecord(rows[j], floatOf) {
      assert Kept(rows[idx[k]], floatOf);
    }
  }

  /** Header rows never produce a record, whatever else they hold. */
  lemma {:induction false} ParseSocialSecuritySkipsHeaders(rows: seq<seq<Cell>>, floatOf: FloatParser)
    requires forall i :: 0 <= i < |rows| ==> |rows[i]| > 0 && IsHeaderRow(rows[i])
    ensures ParseSocialSecurity(rows, floatOf) == []
    decreases |rows|
  {
    if |rows| > 0 {
      var n := |rows| - 1;
      assert forall j :: 0 <= j < n ==> rows[..n][j] == rows[j];
      ParseSocialSecuritySkipsHeaders(rows[..n], floatOf);
    }
  }

  // ---------------------------------------------------------------- mapping sheet

  /** A row of the mapping sheet after `str(...)`/`int(...)`: None where the cell is missing. */
  datatype MappingRow = MappingRow(peId: Option<string>, uid: Option<int>)

  predicate Complete(row: MappingRow) {
    row.peId.Some? && row.uid.Some?
  }

  /** The (pe_id, uid) pairs of the complete rows, in sheet order. */
  function CompletePairs(rows: seq<MappingRow>): (ps: seq<(string, int)>)
    ensures |ps| <= |rows|
    decreases |rows|
  {
    if |rows| == 0 then []
    else
      var n := |rows| - 1;
      CompletePairs(rows[..n]) + (if Complete(rows[n]) then [(rows[n].peId.value, rows[n].uid.value)] else [])
  }

  /** `_parse_mapping`: a dict from pe_id to uid, written row by row. */
  function ParseMapping(rows: seq<MappingRow>): (m: OrderedDict.Dict<string, int>)
    ensures |m| <= |rows|
  {
    OrderedDict.FromPairs(CompletePairs(rows))
  }

  /** The uid of the last complete row with pe_id `k`, scanning from the bottom of the sheet. */
  function LastUid(rows: seq<MappingRow>, k: string): Option<int>
    decreases |rows|
  {
    if |rows| == 0 then None
    else
      var row := rows[|rows| - 1];
      if Complete(row) && row.peId.value == k then row.uid else LastUid(rows[..|rows| - 1], k)
  }

  lemma {:induction false} CompletePairsLast(rows: seq<MappingRow>, k: string)
    ensures OrderedDict.LastValue(CompletePairs(rows), k) == LastUid(rows, k)
    decreases |rows|
  {
    if |rows| > 0 {
      var n := |rows| - 1;
      var prefix := CompletePairs(rows[..n]);
      CompletePairsLast(rows[..n], k);
      if Complete(rows[n]) {
        assert (prefix + [(rows[n].peId.value, rows[n].uid.value)])[..|prefix|] == prefix;
      } else {
        assert prefix + [] == prefix;
      }
    }
  }

  /** Last row wins: each pe_id maps to the uid of its last complete row; rows with a missing
      cell contribute nothing, and the keys are distinct. */
  lemma ParseMappingLastWins(rows: seq<MappingRow>, k: string)
    ensures OrderedDict.Get(ParseMapping(rows), k) == LastUid(rows, k)
    ensures OrderedDict.UniqueKeys(ParseMapping(rows))
  {
    OrderedDict.FromPairsLastWins(CompletePairs(rows), k);
    CompletePairsLast(rows, k);
  }

  // ---------------------------------------------------------------- mapping cells

  /** `str()` of a numeric cell: a parameter, since pandas gives `123` for an integer column and
      `123.0` for a column holding a blank, a rendering the model does not look into. */
  type NumText = real -> string

  /** Python's `int(text)`: the integer the text spells, or None where it raises ValueError. */
  type IntParser = string -> Option<int>

  /** The 经纪人id and UID cells of a mapping-sheet row. */
  datatype MappingCells = MappingCells(peId: Cell, uid: Cell)

  /** The ValueError `int(row['UID'])` raises on text that spells no integer; it aborts the parse. */
  datatype MappingError = UidNotInteger

  /** Python's `int(x)` of a float: truncation toward zero. */
  function Truncate(x: real): (n: int)
    ensures 0.0 <= x ==> n as real <= x < n as real + 1.0
    ensures x < 0.0 ==> n as real - 1.0 < x <= n as real
  {
    if x >= 0.0 then x.Floor else -((-x).Floor)
  }

  /** One row of `_parse_mapping`: a row with a missing cell is skipped (read as incomplete);
      otherwise `str()` of the pe_id cell and `int()` of the UID cell. */
  function ReadMappingRow(row: MappingCells, numText: NumText, intOf: IntParser): (r: Result<MappingRow, MappingError>)
    ensures r.Err? <==> !row.peId.Missing? && row.uid.Str? && intOf(row.uid.s).None?
    ensures r.Ok? ==> (Complete(r.value) <==> !row.peId.Missing? && !row.uid.Missing?)
    ensures r.Ok? && Complete(r.value) ==>
      r.value.peId.value == if row.peId.Str? then row.peId.s else numText(row.peId.x)
    ensures r.Ok? && Complete(r.value) && row.uid.Num? ==> r.value.uid.value == Truncate(row.uid.x)
    ensures r.Ok? && Complete(r.value) && row.uid.Str? ==> r.value.uid == intOf(row.uid.s)
  {
    if row.peId.Missing? || row.uid.Missing? then Ok(MappingRow(None, None))
    else
      var pe := if row.peId.Str? then row.peId.s else numText(row.peId.x);
      if row.uid.Num? then Ok(MappingRow(Some(pe), Some(Truncate(row.uid.x))))
      else match intOf(row.uid.s)
        case None => Err(UidNotInteger)
        case Some(n) => Ok(MappingRow(Some(pe), Some(n)))
  }

  /** `ReadMappingRow` under fixed `str()` and `int()`, as one function value. */
  function RowReader(numText: NumText, intOf: IntParser): MappingCells -> Result<MappingRow, MappingError> {
    row => ReadMappingRow(row, numText, intOf)
  }

  /** `_parse_mapping` on the sheet's cells: the ValueError of the first complete row whose UID
      text is no integer, or else the dict in which each pe_id holds the uid of its last complete
      row. */
  function ParseMappingCells(rows: seq<MappingCells>, numText: NumText, intOf: IntParser)
    : (r: Result<OrderedDict.Dict<string, int>, MappingError>)
    ensures r.Ok? <==> forall i :: 0 <= i < |rows| ==> ReadMappingRow(rows[i], numText, intOf).Ok?
    ensures r.Ok? ==> OrderedDict.UniqueKeys(r.value)
    ensures r.Ok? ==> forall k :: OrderedDict.Get(r.value, k) == LastUid(MapAll(rows, RowReader(numText, intOf)).value, k)
  {
    match MapAll(rows, RowReader(numText, intOf))
    case Err(e) => Err(e)
    case Ok(read) =>
      forall k ensures OrderedDict.Get(ParseMapping(read), k) == LastUid(read, k) {
        ParseMappingLastWins(read, k);
      }
      ParseMappingLastWins(read, "");
      Ok(ParseMapping(read))
  }
}
