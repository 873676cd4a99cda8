/** Matching social-security records to agents, after backend/services/data_matcher.py: region
    aliases, region compatibility, pinyin similarity by edit distance, the keyed agent index and
    the three-tier search. `lazy_pinyin` is a parameter the model does not look into. */
module DataMatcher {
  import opened Wrappers
  import opened Seqs
  import opened Text
  import opened Levenshtein
  import OrderedDict
  import ExcelParser

  // ---------------------------------------------------------------- region aliases

  /** `alias_to_region` as the loop over `region_aliases` builds it: each region's aliases in
      turn, the regions in table order. No alias occurs twice, so no entry is overwritten and the
      dict iterates in exactly this order. The table is written in two literals of 33 entries,
      北京 to 山东 and 四川 to 重庆. */
  const AliasToRegion: seq<(string, string)> := AliasesNorth + AliasesSouth

  const AliasesNorth: seq<(string, string)> := [
    ("北京", "北京"), ("京", "北京"),
    ("上海", "上海"), ("沪", "上海"),
    ("广州", "广州"), ("穗", "广州"),
    ("深圳", "深圳"), ("深", "深圳"),
    ("江苏", "江苏"), ("苏", "江苏"), ("南京", "江苏"), ("苏州", "江苏"), ("无锡", "江苏"), ("常州", "江苏"), ("镇江", "江苏"), ("扬州", "江苏"),
    ("浙江", "浙江"), ("浙", "浙江"), ("杭州", "浙江"), ("宁波", "浙江"), ("温州", "浙江"), ("绍兴", "浙江"),
    ("广东", "广东"), ("粤", "广东"), ("东莞", "广东"), ("佛山", "广东"), ("珠海", "广东"), ("中山", "广东"),
    ("山东", "山东"), ("鲁", "山东"), ("济南", "山东"), ("青岛", "山东"), ("烟台", "山东")
  ]

  const AliasesSouth: seq<(string, string)> := [
    ("四川", "四川"), ("川", "四川"), ("成都", "四川"),
    ("湖北", "湖北"), ("鄂", "湖北"), ("武汉", "湖北"),
    ("湖南", "湖南"), ("湘", "湖南"), ("长沙", "湖南"),
    ("河南", "河南"), ("豫", "河南"), ("郑州", "河南"),
    ("河北", "河北"), ("冀", "河北"), ("石家庄", "河北"),
    ("福建", "福建"), ("闽", "福建"), ("福州", "福建"), ("厦门", "福建"),
    ("安徽", "安徽"), ("皖", "安徽"), ("合肥", "安徽"),
    ("辽宁", "辽宁"), ("辽", "辽宁"), ("沈阳", "辽宁"), ("大连", "辽宁"),
    ("陕西", "陕西"), ("陕", "陕西"), ("西安", "陕西"),
    ("天津", "天津"), ("津", "天津"),
    ("重庆", "重庆"), ("渝", "重庆")
  ]

  /** No alias is the empty string. */
  lemma AliasesNonEmpty()
    ensures |AliasToRegion| == 66
    ensures forall j :: 0 <= j < |AliasToRegion| ==> AliasToRegion[j].0 != ""
  {
  }

  /** `t[i]` is the first entry whose alias `s` contains. */
  predicate FirstAliasAt(t: seq<(string, string)>, s: string, i: nat)
    requires i < |t|
  {
    Contains(s, t[i].0) && forall j :: 0 <= j < i ==> !Contains(s, t[j].0)
  }

  /** The position of the first entry whose alias `s` contains. */
  function FirstAlias(t: seq<(string, string)>, s: string): (r: Option<nat>)
    ensures r.Some? ==> r.value < |t| && FirstAliasAt(t, s, r.value)
    ensures r.None? <==> forall j :: 0 <= j < |t| ==> !Contains(s, t[j].0)
    decreases |t|
  {
    if |t| == 0 then None
    else if Contains(s, t[0].0) then Some(0)
    else
      var r := FirstAlias(t[1..], s);
      assert forall j :: 1 <= j < |t| ==> t[j] == t[1..][j - 1];
      if r.None? then None else Some(r.value + 1)
  }

  /** `_normalize_region(region)` as written: the region of the first alias, in dict order, that
      occurs in `region`; the input itself when none does; `''` for an empty input. */
  function NormalizeRegionAsWritten(region: string): (r: string)
    ensures region == "" ==> r == ""
    ensures region != "" && (forall j :: 0 <= j < |AliasToRegion| ==> !Contains(region, AliasToRegion[j].0)) ==> r == region
    ensures forall i :: 0 <= i < |AliasToRegion| && region != "" && FirstAliasAt(AliasToRegion, region, i) ==> r == AliasToRegion[i].1
  {
    if region == "" then ""
    else match FirstAlias(AliasToRegion, region)
      case None => region
      case Some(i) => AliasToRegion[i].1
  }

  /** The first-match scan misfiles Nanjing: `南京` is listed under 江苏, but the earlier alias `京`
      (of 北京) already occurs in it. */
  lemma NormalizeRegionAsWrittenNanjing()
    ensures AliasToRegion[10] == ("南京", "江苏")
    ensures NormalizeRegionAsWritten("南京") == "北京"
  {
    assert AliasToRegion[0].0 == "北京" && AliasToRegion[1] == ("京", "北京");
    assert !Contains("南京", "北京") by {
      assert "南京"[1..] == "京" && "京"[1..] == "";
      assert "北京"[0] != "南京"[0] && !("北京" <= "南京");
      assert !Contains("", "北京");
      assert !Contains("京", "北京");
    }
    assert Contains("南京", "京") by {
      assert "南京"[1..] == "京";
      assert Contains("京", "京");
    }
    assert FirstAliasAt(AliasToRegion, "南京", 1);
  }

  /** `t[i]` is the entry `normalize_region` should pick: a longest alias `s` contains, the first
      such in table order. */
  predicate BestAliasAt(t: seq<(string, string)>, s: string, i: nat)
    requires i < |t|
  {
    && Contains(s, t[i].0)
    && (forall j :: 0 <= j < |t| && Contains(s, t[j].0) ==> |t[j].0| <= |t[i].0|)
    && (forall j :: 0 <= j < i && Contains(s, t[j].0) ==> |t[j].0| < |t[i].0|)
  }

  /** The position of the longest alias `s` contains, the earliest on ties. */
  function BestAlias(t: seq<(string, string)>, s: string): (r: Option<nat>)
    ensures r.Some? ==> r.value < |t| && BestAliasAt(t, s, r.value)
    ensures r.None? <==> forall j :: 0 <= j < |t| ==> !Contains(s, t[j].0)
    decreases |t|
  {
    if |t| == 0 then None
    else
      var n := |t| - 1;
      var b := BestAlias(t[..n], s);
      assert forall j :: 0 <= j < n ==> t[..n][j] == t[j];
      if Contains(s, t[n].0) && (b.None? || |t[b.value].0| < |t[n].0|) then Some(n) else b
  }

  /** `_normalize_region(region)` as evidently intended: the region of the most specific alias
      that occurs in `region` (so `南京` is 江苏, not 北京 by way of `京`); the input itself when
      no alias occurs; `''` for an empty input. */
  function NormalizeRegion(region: string): (r: string)
    ensures region == "" ==> r == ""
    ensures region != "" && (forall j :: 0 <= j < |AliasToRegion| ==> !Contains(region, AliasToRegion[j].0)) ==> r == region
    ensures forall i :: 0 <= i < |AliasToRegion| && region != "" && BestAliasAt(AliasToRegion, region, i) ==> r == AliasToRegion[i].1
  {
    if region == "" then ""
    else match BestAlias(AliasToRegion, region)
      case None => region
      case Some(i) => AliasToRegion[i].1
  }

  /** With the most specific alias winning, a region given by one of its aliases normalises to
      the region the first table entry for that alias names. */
  lemma NormalizeRegionOfAlias(i: nat)
    requires i < |AliasToRegion|
    ensures exists k: nat :: FirstEntryOf(AliasToRegion[i].0, k) && k <= i && NormalizeRegion(AliasToRegion[i].0) == AliasToRegion[k].1
  {
    var t, a := AliasToRegion, AliasToRegion[i].0;
    AliasesNonEmpty();
    ContainsSameLength(a, a);
    var k := BestAlias(t, a).value;
    assert |t[k].0| >= |a|;
    ContainsSameLength(a, t[k].0);
    forall j | 0 <= j < k ensures t[j].0 != a {
      assert !Contains(a, t[j].0) || |t[j].0| < |t[k].0|;
    }
    assert k <= i by {
      assert Contains(a, t[i].0);
    }
    assert FirstEntryOf(a, k);
  }

  /** `AliasToRegion[k]` is the first entry for alias `a`. */
  predicate FirstEntryOf(a: string, k: nat) {
    k < |AliasToRegion| && AliasToRegion[k].0 == a && forall j :: 0 <= j < k ==> AliasToRegion[j].0 != a
  }

  /** `南京` first appears at entry 10, under 江苏. */
  lemma NanjingEntry()
    ensures FirstEntryOf("南京", 10) && AliasToRegion[10].1 == "江苏"
  {
    assert AliasToRegion[10] == ("南京", "江苏");
    assert forall j :: 0 <= j < 10 ==> AliasToRegion[j].0 != "南京";
  }

  /** The corrected normalisation files Nanjing under 江苏. */
  lemma NormalizeRegionNanjing()
    ensures NormalizeRegion("南京") == "江苏"
  {
    NanjingEntry();
    NormalizeRegionOfAlias(10);
    var k: nat :| FirstEntryOf("南京", k) && k <= 10 && NormalizeRegion("南京") == AliasToRegion[k].1;
    assert k == 10 by {
      assert !(k < 10) by {
        assert AliasToRegion[k].0 == "南京";
      }
    }
  }

  /** How region text is normalised before it is compared or used as an index key. The program
      normalises with `NormalizeRegionAsWritten`; `NormalizeRegion` is the corrected choice. The
      index, the search and the matching below take the normaliser as a parameter, so each of
      their contracts holds of both. */
  type Normalizer = string -> string

  /** `_regions_compatible(region1, region2)`: an empty side is compatible with anything;
      otherwise the two must be equal or normalise to the same region. */
  function RegionsCompatible(r1: string, r2: string, norm: Normalizer): (ok: bool)
    ensures ok <==> r1 == "" || r2 == "" || norm(r1) == norm(r2)
  {
    if r1 == "" || r2 == "" then true
    else if r1 == r2 then true
    else norm(r1) == norm(r2)
  }

  lemma RegionsCompatibleLaws(r1: string, r2: string, norm: Normalizer)
    ensures RegionsCompatible(r1, r1, norm)
    ensures RegionsCompatible(r1, r2, norm) == RegionsCompatible(r2, r1, norm)
  {
  }

  // ---------------------------------------------------------------- pinyin

  /** `lazy_pinyin(text)`: the syllables of a name. */
  type PinyinOf = string -> seq<string>

  /** The characters `_to_pinyin` keeps: CJK ideographs U+4E00..U+9FA5 and ASCII letters. */
  predicate IsNameChar(c: char) {
    ('\U{4E00}' <= c <= '\U{9FA5}') || ('a' <= c <= 'z') || ('A' <= c <= 'Z')
  }

  /** `''.join(parts)`. */
  function Join(parts: seq<string>): string
    decreases |parts|
  {
    if |parts| == 0 then "" else Join(parts[..|parts| - 1]) + parts[|parts| - 1]
  }

  /** `_to_pinyin(name)`: strip everything but ideographs and letters, convert, join and lower-case. */
  function ToPinyin(name: string, pinyinOf: PinyinOf): (p: string)
    ensures name == "" ==> p == ""
    ensures forall i :: 0 <= i < |p| ==> !IsAsciiUpper(p[i])
  {
    if name == "" then "" else Lower(Join(pinyinOf(Filter(name, IsNameChar))))
  }

  /** Spaces, digits and punctuation in a name make no difference to its pinyin. */
  lemma ToPinyinIgnoresOtherChars(a: string, b: string, pinyinOf: PinyinOf)
    requires a != "" && b != ""
    requires Filter(a, IsNameChar) == Filter(b, IsNameChar)
    ensures ToPinyin(a, pinyinOf) == ToPinyin(b, pinyinOf)
  {
  }

  /** `_pinyin_similar(p1, p2)` with its 0.8 threshold in exact form: both non-empty and
      5 · distance ≤ the longer length. */
  function PinyinSimilar(p1: string, p2: string): (ok: bool)
    ensures ok <==> p1 != "" && p2 != "" && 1.0 - (Dist(p1, p2) as real) / (Max(|p1|, |p2|) as real) >= 0.8
  {
    var ok := p1 != "" && p2 != "" && 5 * Dist(p1, p2) <= Max(|p1|, |p2|);
    if p1 != "" && p2 != "" then
      SimilarityThreshold(Dist(p1, p2), Max(|p1|, |p2|));
      ok
    else ok
  }

  /** `1 - d / m >= 0.8` is `5 * d <= m` for a positive length `m`. */
  lemma SimilarityThreshold(d: nat, m: nat)
    requires m > 0
    ensures 5 * d <= m <==> 1.0 - (d as real) / (m as real) >= 0.8
  {
    var q, mr := (d as real) / (m as real), m as real;
    assert q * mr == d as real;
    ScaleMonotone(q, 0.2, mr);
    assert q <= 0.2 <==> d as real <= 0.2 * mr;
    assert 5 * d <= m <==> d as real <= 0.2 * mr;
    assert 1.0 - q >= 0.8 <==> q <= 0.2;
  }

  lemma ScaleMonotone(x: real, y: real, m: real)
    requires m > 0.0
    ensures x <= y <==> x * m <= y * m
  {
    assert (y - x) * m == y * m - x * m;
  }

  /** Identical non-empty pinyin is similar, similarity is symmetric, and lengths differing by
      more than a fifth of the longer one are never similar. */
  lemma PinyinSimilarLaws(p1: string, p2: string)
    ensures p1 != "" ==> PinyinSimilar(p1, p1)
    ensures PinyinSimilar(p1, p2) == PinyinSimilar(p2, p1)
    ensures 5 * (|p1| - |p2|) > |p1| ==> !PinyinSimilar(p1, p2)
  {
    DistSelf(p1);
    DistSymmetric(p1, p2);
    DistBounds(p1, p2);
  }

  // ---------------------------------------------------------------- agent index

  /** A key of the agent index: `(pinyin, std_region)` for an agent with a name, `('id', agent_id)` for every agent. */
  datatype IndexKey = NameKey(pinyin: string, region: string) | IdKey(id: int)

  type Index = OrderedDict.Dict<IndexKey, int>

  /** What the matcher reads of an agent dict: its id, `region` (None when absent or null) and `name` when present. */
  datatype AgentInfo = AgentInfo(agentId: int, region: Option<string>, name: Option<string>)

  /** `agent.get('region', '')` as text, a null region read as empty. */
  function RegionText(region: Option<string>): string {
    region.GetOr("")
  }

  function NameKeyOf(a: AgentInfo, pinyinOf: PinyinOf, norm: Normalizer): IndexKey
    requires a.name.Some?
  {
    NameKey(ToPinyin(a.name.value, pinyinOf), norm(RegionText(a.region)))
  }

  /** The writes one agent makes to the index, in order. */
  function AgentEntries(a: AgentInfo, pinyinOf: PinyinOf, norm: Normalizer): seq<(IndexKey, int)> {
    (if a.name.Some? then [(NameKeyOf(a, pinyinOf, norm), a.agentId)] else []) + [(IdKey(a.agentId), a.agentId)]
  }

  /** All writes of `_build_agent_index`, agent after agent. */
  function IndexWrites(agents: seq<AgentInfo>, pinyinOf: PinyinOf, norm: Normalizer): seq<(IndexKey, int)>
    decreases |agents|
  {
    if |agents| == 0 then [] else IndexWrites(agents[..|agents| - 1], pinyinOf, norm) + AgentEntries(agents[|agents| - 1], pinyinOf, norm)
  }

  /** `_build_agent_index(agents)`: a dict written key by key, a later write overwriting in place. */
  function BuildIndex(agents: seq<AgentInfo>, pinyinOf: PinyinOf, norm: Normalizer): (ix: Index)
    ensures OrderedDict.UniqueKeys(ix)
  {
    OrderedDict.FromPairsLastWins(IndexWrites(agents, pinyinOf, norm), IdKey(0));
    OrderedDict.FromPairs(IndexWrites(agents, pinyinOf, norm))
  }

  /** Reference value of an index key: the id of the last agent that writes it. */
  function LastWriter(agents: seq<AgentInfo>, pinyinOf: PinyinOf, norm: Normalizer, k: IndexKey): Option<int>
    decreases |agents|
  {
    if |agents| == 0 then None
    else
      var a := agents[|agents| - 1];
      if k == IdKey(a.agentId) || (a.name.Some? && k == NameKeyOf(a, pinyinOf, norm)) then Some(a.agentId)
      else LastWriter(agents[..|agents| - 1], pinyinOf, norm, k)
  }

  lemma {:induction false} LastValueAppend<K, V>(ps: seq<(K, V)>, qs: seq<(K, V)>, k: K)
    ensures OrderedDict.LastValue(ps + qs, k) ==
      if OrderedDict.LastValue(qs, k).Some? then OrderedDict.LastValue(qs, k) else OrderedDict.LastValue(ps, k)
    decreases |qs|
  {
    if |qs| == 0 {
      assert ps + qs == ps;
    } else {
      assert (ps + qs)[..|ps + qs| - 1] == ps + qs[..|qs| - 1];
      LastValueAppend(ps, qs[..|qs| - 1], k);
    }
  }

  /** The last write one agent makes to key `k`. */
  lemma AgentEntriesLast(a: AgentInfo, pinyinOf: PinyinOf, norm: Normalizer, k: IndexKey)
    ensures OrderedDict.LastValue(AgentEntries(a, pinyinOf, norm), k) ==
      if k == IdKey(a.agentId) || (a.name.Some? && k == NameKeyOf(a, pinyinOf, norm)) then Some(a.agentId) else None
  {
    var es := AgentEntries(a, pinyinOf, norm);
    if a.name.Some? {
      assert |es| == 2 && es[1] == (IdKey(a.agentId), a.agentId);
      assert es[..1] == [(NameKeyOf(a, pinyinOf, norm), a.agentId)];
      assert es[..1][..0] == [];
      assert OrderedDict.LastValue(es[..1], k) == if k == NameKeyOf(a, pinyinOf, norm) then Some(a.agentId) else None by {
        assert OrderedDict.LastValue(es[..1][..0], k) == None;
      }
    } else {
      assert es[..0] == [];
    }
  }

  lemma {:induction false} IndexWritesLast(agents: seq<AgentInfo>, pinyinOf: PinyinOf, norm: Normalizer, k: IndexKey)
    ensures OrderedDict.LastValue(IndexWrites(agents, pinyinOf, norm), k) == LastWriter(agents, pinyinOf, norm, k)
    decreases |agents|
  {
    if |agents| > 0 {
      var n := |agents| - 1;
      IndexWritesLast(agents[..n], pinyinOf, norm, k);
      LastValueAppend(IndexWrites(agents[..n], pinyinOf, norm), AgentEntries(agents[n], pinyinOf, norm), k);
      AgentEntriesLast(agents[n], pinyinOf, norm, k);
    }
  }

  /** Last write wins: each key of the index holds the id of the last agent writing it, and a
      key no agent writes is absent. */
  lemma BuildIndexLastWins(agents: seq<AgentInfo>, pinyinOf: PinyinOf, norm: Normalizer, k: IndexKey)
    ensures OrderedDict.Get(BuildIndex(agents, pinyinOf, norm), k) == LastWriter(agents, pinyinOf, norm, k)
  {
    OrderedDict.FromPairsLastWins(IndexWrites(agents, pinyinOf, norm), k);
    IndexWritesLast(agents, pinyinOf, norm, k);
  }

  /** Every agent is reachable under its `('id', agent_id)` key, and that key always holds the id
      itself; a `(pinyin, region)` key exists only for agents that have a name. */
  lemma {:induction false} LastWriterKeys(agents: seq<AgentInfo>, pinyinOf: PinyinOf, norm: Normalizer, k: IndexKey)
    ensures k.IdKey? ==>
      LastWriter(agents, pinyinOf, norm, k) == (if exists i :: 0 <= i < |agents| && agents[i].agentId == k.id then Some(k.id) else None)
    ensures k.NameKey? && LastWriter(agents, pinyinOf, norm, k).Some? ==>
      exists i :: 0 <= i < |agents| && agents[i].name.Some? && NameKeyOf(agents[i], pinyinOf, norm) == k
    decreases |agents|
  {
    if |agents| > 0 {
      var n := |agents| - 1;
      LastWriterKeys(agents[..n], pinyinOf, norm, k);
      assert forall i :: 0 <= i < n ==> agents[..n][i] == agents[i];
    }
  }

  // ---------------------------------------------------------------- find match

  /** The outcome of `_find_match`: an agent id, None, or the TypeError raised when an
      `('id', agent_id)` entry's integer reaches `_normalize_region`. */
  datatype Match = Hit(id: int) | Miss | RegionTypeError

  /** The first component of an index key, `p` in `for (p, r), agent_id in agent_index.items()`. */
  function KeyPinyin(k: IndexKey): string {
    match k
    case NameKey(p, _) => p
    case IdKey(_) => "id"
  }

  /** `_regions_compatible(std_region, r)` for an index entry; None where the source raises
      (a non-empty record region against a non-zero integer id). */
  function EntryCompatible(std: string, k: IndexKey, norm: Normalizer): (c: Option<bool>)
    ensures k.NameKey? ==> c == Some(RegionsCompatible(std, k.region, norm))
    ensures k.IdKey? ==> (c.None? <==> std != "" && k.id != 0)
  {
    match k
    case NameKey(_, r) => Some(RegionsCompatible(std, r, norm))
    case IdKey(id) => if std == "" || id == 0 then Some(true) else None
  }

  /** The two fuzzy tiers: equal pinyin, then similar pinyin. */
  datatype Tier = SamePinyin | SimilarPinyin

  predicate Accepts(tier: Tier, pinyin: string, p: string) {
    match tier
    case SamePinyin => p == pinyin
    case SimilarPinyin => PinyinSimilar(pinyin, p)
  }

  /** The scan stops at an entry whose pinyin the tier accepts and whose region check does not say no. */
  predicate Stops(tier: Tier, pinyin: string, std: string, e: (IndexKey, int), norm: Normalizer) {
    Accepts(tier, pinyin, KeyPinyin(e.0)) && EntryCompatible(std, e.0, norm) != Some(false)
  }

  /** `ix[i]` is the first entry at which the scan stops. */
  predicate FirstStop(ix: Index, tier: Tier, pinyin: string, std: string, norm: Normalizer, i: nat)
    requires i < |ix|
  {
    Stops(tier, pinyin, std, ix[i], norm) && forall j :: 0 <= j < i ==> !Stops(tier, pinyin, std, ix[j], norm)
  }

  function StopOutcome(std: string, e: (IndexKey, int), norm: Normalizer): Match {
    if EntryCompatible(std, e.0, norm).None? then RegionTypeError else Hit(e.1)
  }

  /** One of the two `for` loops of `_find_match`, over the index in insertion order. */
  function Scan(ix: Index, tier: Tier, pinyin: string, std: string, norm: Normalizer): (m: Match)
    ensures (forall i :: 0 <= i < |ix| ==> !Stops(tier, pinyin, std, ix[i], norm)) <==> m == Miss
    ensures forall i :: 0 <= i < |ix| && FirstStop(ix, tier, pinyin, std, norm, i) ==> m == StopOutcome(std, ix[i], norm)
    decreases |ix|
  {
    if |ix| == 0 then Miss
    else
      var m := Scan(ix[1..], tier, pinyin, std, norm);
      assert forall i :: 1 <= i < |ix| ==> ix[i] == ix[1..][i - 1];
      if !Accepts(tier, pinyin, KeyPinyin(ix[0].0)) then m
      else match EntryCompatible(std, ix[0].0, norm)
        case None => RegionTypeError
        case Some(true) => Hit(ix[0].1)
        case Some(false) => m
  }

  /** `_find_match(name, region, agent_index)`: the exact `(pinyin, std_region)` key, else the
      first equal-pinyin entry with a compatible region, else the first similar one. */
  function FindMatch(name: string, region: string, ix: Index, pinyinOf: PinyinOf, norm: Normalizer): (m: Match)
    ensures var p, std := ToPinyin(name, pinyinOf), norm(region);
      && (OrderedDict.Get(ix, NameKey(p, std)).Some? ==> m == Hit(OrderedDict.Get(ix, NameKey(p, std)).value))
      && (OrderedDict.Get(ix, NameKey(p, std)).None? && Scan(ix, SamePinyin, p, std, norm) != Miss ==> m == Scan(ix, SamePinyin, p, std, norm))
      && (OrderedDict.Get(ix, NameKey(p, std)).None? && Scan(ix, SamePinyin, p, std, norm) == Miss ==> m == Scan(ix, SimilarPinyin, p, std, norm))
      && (m == Miss <==> OrderedDict.Get(ix, NameKey(p, std)).None?
                          && (forall i :: 0 <= i < |ix| ==> !Stops(SamePinyin, p, std, ix[i], norm))
                          && (forall i :: 0 <= i < |ix| ==> !Stops(SimilarPinyin, p, std, ix[i], norm)))
  {
    var p := ToPinyin(name, pinyinOf);
    var std := norm(region);
    match OrderedDict.Get(ix, NameKey(p, std))
    case Some(id) => Hit(id)
    case None =>
      var same := Scan(ix, SamePinyin, p, std, norm);
      if same != Miss then same else Scan(ix, SimilarPinyin, p, std, norm)
  }

  /** An agent registered under the record's own `(pinyin, normalised region)` key is found by
      the exact lookup, whatever else the index holds; the last such agent wins. */
  lemma FindMatchExact(name: string, region: string, agents: seq<AgentInfo>, pinyinOf: PinyinOf, norm: Normalizer)
    requires LastWriter(agents, pinyinOf, norm, NameKey(ToPinyin(name, pinyinOf), norm(region))).Some?
    ensures FindMatch(name, region, BuildIndex(agents, pinyinOf, norm), pinyinOf, norm) ==
      Hit(LastWriter(agents, pinyinOf, norm, NameKey(ToPinyin(name, pinyinOf), norm(region))).value)
  {
    BuildIndexLastWins(agents, pinyinOf, norm, NameKey(ToPinyin(name, pinyinOf), norm(region)));
  }

  /** Agent 1 of the Nanjing example: 张, of 江苏. */
  const Zhang: AgentInfo := AgentInfo(1, Some("江苏"), Some("张"))

  /** 江苏 and 北京 normalise to themselves, under either normaliser for 江苏. */
  lemma PlainRegions()
    ensures NormalizeRegionAsWritten("江苏") == "江苏" && NormalizeRegion("江苏") == "江苏"
    ensures NormalizeRegionAsWritten("北京") == "北京"
  {
    var t := AliasToRegion;
    AliasesNonEmpty();
    ContainsSameLength("江苏", "江苏");
    ContainsSameLength("北京", "北京");
    assert t[8] == ("江苏", "江苏") && t[0] == ("北京", "北京");
    forall j | 0 <= j < 8 ensures !Contains("江苏", t[j].0) {
      assert t[j].0[0] in ['北', '京', '上', '沪', '广', '穗', '深'];
      if Contains("江苏", t[j].0) {
        ContainsFirstChar("江苏", t[j].0);
      }
    }
    assert FirstAliasAt(t, "江苏", 8);
    assert FirstAliasAt(t, "北京", 0);
    NormalizeRegionOfAlias(8);
    var k: nat :| FirstEntryOf("江苏", k) && k <= 8 && NormalizeRegion("江苏") == t[k].1;
    assert k == 8 by {
      assert !(k < 8) by {
        assert t[k].0 == "江苏";
      }
    }
  }

  /** With the corrected normaliser, a record for 张 in 南京 finds agent 1, 张 of 江苏, by the
      exact `(pinyin, region)` key. */
  lemma FindMatchNanjing(pinyinOf: PinyinOf)
    ensures FindMatch("张", "南京", BuildIndex([Zhang], pinyinOf, NormalizeRegion), pinyinOf, NormalizeRegion) == Hit(1)
  {
    PlainRegions();
    NormalizeRegionNanjing();
    FindMatchExact("张", "南京", [Zhang], pinyinOf, NormalizeRegion);
  }

  /** The pinyin of 张 when `lazy_pinyin` gives `zhang`. */
  lemma PinyinZhang(pinyinOf: PinyinOf)
    requires pinyinOf("张") == ["zhang"]
    ensures ToPinyin("张", pinyinOf) == "zhang"
  {
    assert Filter("张", IsNameChar) == "张" by {
      assert "张"[..0] == "";
    }
    assert Join(["zhang"]) == "zhang" by {
      assert |["zhang"][..0]| == 0;
    }
  }

  /** The index of agent 1 alone: its name key, then its id key. */
  lemma IndexOfZhang(pinyinOf: PinyinOf, norm: Normalizer)
    ensures BuildIndex([Zhang], pinyinOf, norm) == [(NameKey(ToPinyin("张", pinyinOf), norm("江苏")), 1), (IdKey(1), 1)]
  {
    var e0: (IndexKey, int), e1: (IndexKey, int) := (NameKey(ToPinyin("张", pinyinOf), norm("江苏")), 1), (IdKey(1), 1);
    assert IndexWrites([Zhang], pinyinOf, norm) == [e0, e1] by {
      assert |[Zhang][..0]| == 0;
    }
    assert [e0, e1][..1] == [e0] && |[e0][..0]| == 0;
    assert OrderedDict.FromPairs([e0]) == [e0];
    assert OrderedDict.Put([e0], e1.0, e1.1) == [e0] + OrderedDict.Put([e0][1..], e1.0, e1.1);
  }

  /** A record for 张 in 南京 misses agent 1 under any normaliser that files 南京 apart from
      江苏 and keeps the two apart when it normalises them again, once the name's pinyin is
      `zhang`: the exact key is absent, the 江苏 entry is incompatible, and the `('id', 1)`
      entry's pinyin `id` is neither equal nor similar to `zhang`. */
  lemma FindMatchMissesZhang(pinyinOf: PinyinOf, norm: Normalizer)
    requires ToPinyin("张", pinyinOf) == "zhang"
    requires norm("南京") != "" && norm("江苏") != ""
    requires norm("南京") != norm("江苏") && norm(norm("南京")) != norm(norm("江苏"))
    ensures FindMatch("张", "南京", BuildIndex([Zhang], pinyinOf, norm), pinyinOf, norm) == Miss
  {
    IndexOfZhang(pinyinOf, norm);
    var p, std := "zhang", norm("南京");
    var e0: (IndexKey, int), e1: (IndexKey, int) := (NameKey(p, norm("江苏")), 1), (IdKey(1), 1);
    assert BuildIndex([Zhang], pinyinOf, norm) == [e0, e1];
    PinyinSimilarLaws(p, "id");
    assert !Stops(SamePinyin, p, std, e0, norm) && !Stops(SimilarPinyin, p, std, e0, norm);
    assert !Stops(SamePinyin, p, std, e1, norm) && !Stops(SimilarPinyin, p, std, e1, norm);
  }

  /** As written, the record misses agent 1: 南京 normalises to 北京, which is neither 江苏 nor
      compatible with it. */
  lemma FindMatchAsWrittenNanjing(pinyinOf: PinyinOf)
    requires pinyinOf("张") == ["zhang"]
    ensures FindMatch("张", "南京", BuildIndex([Zhang], pinyinOf, NormalizeRegionAsWritten), pinyinOf, NormalizeRegionAsWritten) == Miss
  {
    PlainRegions();
    NormalizeRegionAsWrittenNanjing();
    PinyinZhang(pinyinOf);
    FindMatchMissesZhang(pinyinOf, NormalizeRegionAsWritten);
  }

  // ---------------------------------------------------------------- agent dicts

  /** An agent dict as `_parse_agents` hands it over, as far as the index reads it: the id, and
      the `region` and `name` cells, None when the dict has no such key. An empty 地域 cell is
      NaN, which `Missing` stands for. */
  datatype AgentDict = AgentDict(agentId: int, region: Option<ExcelParser.Cell>, name: Option<ExcelParser.Cell>)

  /** A present cell that is truthy but not text: `alias in region` and `re.sub(..., name)` raise
      TypeError on it. */
  predicate RaisesOn(c: Option<ExcelParser.Cell>) {
    c.Some? && CellTruthy(c.value) && !c.value.Str?
  }

  /** What a cell that does not raise reads as: its text, or `""` for a falsy cell, which
      `_normalize_region` and `_to_pinyin` both turn into `''`. */
  function CellText(c: ExcelParser.Cell): string {
    if c.Str? then c.s else ""
  }

  /** One agent dict as `_build_agent_index` reads it. The region is normalised before the name
      is converted, so a bad region raises first. */
  function ReadAgent(a: AgentDict): (r: Result<AgentInfo, MatchError>)
    ensures r.Ok? <==> !RaisesOn(a.region) && !RaisesOn(a.name)
    ensures RaisesOn(a.region) ==> r == Err(RegionNotText)
    ensures !RaisesOn(a.region) && RaisesOn(a.name) ==> r == Err(NameNotText)
    ensures r.Ok? ==> r.value.agentId == a.agentId && (r.value.name.Some? <==> a.name.Some?)
    ensures r.Ok? ==> RegionText(r.value.region) == if a.region.Some? then CellText(a.region.value) else ""
    ensures r.Ok? && a.name.Some? ==> r.value.name.value == CellText(a.name.value)
  {
    if RaisesOn(a.region) then Err(RegionNotText)
    else if RaisesOn(a.name) then Err(NameNotText)
    else
      var region := if a.region.Some? then Some(CellText(a.region.value)) else None;
      var name := if a.name.Some? then Some(CellText(a.name.value)) else None;
      Ok(AgentInfo(a.agentId, region, name))
  }

  /** `_build_agent_index(agents)` on the dicts as they arrive: the TypeError of the first agent
      with a bad region or name, or else the index of the agents as read, in which each key holds
      the id of its last writer. */
  function AgentIndex(agents: seq<AgentDict>, pinyinOf: PinyinOf, norm: Normalizer): (r: Result<Index, MatchError>)
    ensures r.Ok? <==> forall i :: 0 <= i < |agents| ==> !RaisesOn(agents[i].region) && !RaisesOn(agents[i].name)
    ensures r.Err? ==> exists i :: (0 <= i < |agents| && ReadAgent(agents[i]) == Err(r.error)
      && forall j :: 0 <= j < i ==> ReadAgent(agents[j]).Ok?)
    ensures r.Ok? ==> OrderedDict.UniqueKeys(r.value)
    ensures r.Ok? ==> forall k :: OrderedDict.Get(r.value, k) == LastWriter(MapAll(agents, ReadAgent).value, pinyinOf, norm, k)
  {
    match MapAll(agents, ReadAgent)
    case Err(e) => Err(e)
    case Ok(infos) =>
      forall k ensures OrderedDict.Get(BuildIndex(infos, pinyinOf, norm), k) == LastWriter(infos, pinyinOf, norm, k) {
        BuildIndexLastWins(infos, pinyinOf, norm, k);
      }
      Ok(BuildIndex(infos, pinyinOf, norm))
  }

  // ---------------------------------------------------------------- applying matches

  /** What the matcher reads and writes of a social-security record. */
  datatype MatchRecord = MatchRecord(name: ExcelParser.Cell, region: Option<string>, matchedAgentId: Option<int>)

  datatype MatchError = NameNotText | RegionNotText

  /** Python truthiness of a cell; NaN is a (truthy) float. */
  predicate CellTruthy(c: ExcelParser.Cell) {
    match c
    case Missing => true
    case Str(s) => s != ""
    case Num(x) => x != 0.0
  }

  /** One iteration of `match_social_security`: a falsy name is skipped, a non-text name makes
      the regex raise, and a truthy match is written to `matched_agent_id`. */
  function MatchOne(rec: MatchRecord, ix: Index, pinyinOf: PinyinOf, norm: Normalizer): (r: Result<MatchRecord, MatchError>)
    ensures !CellTruthy(rec.name) ==> r == Ok(rec)
    ensures CellTruthy(rec.name) && !rec.name.Str? ==> r == Err(NameNotText)
    ensures r.Ok? ==> r.value.name == rec.name && r.value.region == rec.region
    ensures r.Ok? && r.value.matchedAgentId != rec.matchedAgentId ==>
      && rec.name.Str? && r.value.matchedAgentId.Some? && r.value.matchedAgentId.value != 0
      && FindMatch(rec.name.s, RegionText(rec.region), ix, pinyinOf, norm) == Hit(r.value.matchedAgentId.value)
    ensures rec.name.Str? && rec.name.s != "" ==>
      match FindMatch(rec.name.s, RegionText(rec.region), ix, pinyinOf, norm)
      case RegionTypeError => r == Err(RegionNotText)
      case Hit(id) => r == Ok(if id != 0 then rec.(matchedAgentId := Some(id)) else rec)
      case Miss => r == Ok(rec)
  {
    if !CellTruthy(rec.name) then Ok(rec)
    else if !rec.name.Str? then Err(NameNotText)
    else match FindMatch(rec.name.s, RegionText(rec.region), ix, pinyinOf, norm)
      case RegionTypeError => Err(RegionNotText)
      case Miss => Ok(rec)
      case Hit(id) => if id != 0 then Ok(rec.(matchedAgentId := Some(id))) else Ok(rec)
  }

  function MatchAll(records: seq<MatchRecord>, ix: Index, pinyinOf: PinyinOf, norm: Normalizer): (r: Result<seq<MatchRecord>, MatchError>)
    ensures r.Ok? <==> forall i :: 0 <= i < |records| ==> MatchOne(records[i], ix, pinyinOf, norm).Ok?
    ensures r.Ok? ==> |r.value| == |records| && forall i :: 0 <= i < |records| ==> r.value[i] == MatchOne(records[i], ix, pinyinOf, norm).value
    decreases |records|
  {
    if |records| == 0 then Ok([])
    else
      var n := |records| - 1;
      assert forall i :: 0 <= i < n ==> records[..n][i] == records[i];
      match MatchAll(records[..n], ix, pinyinOf, norm)
      case Err(e) => Err(e)
      case Ok(prefix) =>
        match MatchOne(records[n], ix, pinyinOf, norm)
        case Err(e) => Err(e)
        case Ok(rec) => Ok(prefix + [rec])
  }

  /** `match_social_security(ss_records, agents)`: the index is built first, so an agent with a
      bad region or name fails the call whatever the records; then the records in their order,
      each updated as `MatchOne` says against that index. */
  function MatchSocialSecurity(records: seq<MatchRecord>, agents: seq<AgentDict>, pinyinOf: PinyinOf, norm: Normalizer)
    : (r: Result<seq<MatchRecord>, MatchError>)
    ensures AgentIndex(agents, pinyinOf, norm).Err? ==> r == Err(AgentIndex(agents, pinyinOf, norm).error)
    ensures r.Ok? <==> ((forall j :: 0 <= j < |agents| ==> !RaisesOn(agents[j].region) && !RaisesOn(agents[j].name))
      && forall i :: 0 <= i < |records| ==> MatchOne(records[i], AgentIndex(agents, pinyinOf, norm).value, pinyinOf, norm).Ok?)
    ensures r.Ok? ==> (|r.value| == |records|
      && forall i :: 0 <= i < |records| ==> r.value[i] == MatchOne(records[i], AgentIndex(agents, pinyinOf, norm).value, pinyinOf, norm).value)
    ensures r.Ok? ==> forall i :: 0 <= i < |records| ==>
      r.value[i].name == records[i].name && r.value[i].region == records[i].region
    ensures r.Ok? ==> forall i :: 0 <= i < |records| && !CellTruthy(records[i].name) ==> r.value[i] == records[i]
  {
    match AgentIndex(agents, pinyinOf, norm)
    case Err(e) => Err(e)
    case Ok(ix) => MatchAll(records, ix, pinyinOf, norm)
  }

  /** An agent whose 地域 cell is empty (NaN) fails the whole matching, whatever the records. */
  lemma MatchFailsOnBlankRegion(records: seq<MatchRecord>, agents: seq<AgentDict>, pinyinOf: PinyinOf, norm: Normalizer)
    requires exists j :: 0 <= j < |agents| && agents[j].region == Some(ExcelParser.Missing)
    ensures MatchSocialSecurity(records, agents, pinyinOf, norm).Err?
  {
    var j :| 0 <= j < |agents| && agents[j].region == Some(ExcelParser.Missing);
    assert RaisesOn(agents[j].region);
  }

  // ---------------------------------------------------------------- match report

  /** `r.get('matched_agent_id')` is truthy. */
  predicate IsMatched(r: MatchRecord) {
    r.matchedAgentId.Some? && r.matchedAgentId.value != 0
  }

  datatype Sample = Sample(name: ExcelParser.Cell, region: Option<string>)

  datatype MatchReport = MatchReport(total: nat, matched: nat, unmatched: nat, matchRate: real, unmatchedSamples: seq<Sample>)

  function CountMatched(records: seq<MatchRecord>): (n: nat)
    ensures n <= |records|
    decreases |records|
  {
    if |records| == 0 then 0 else CountMatched(records[..|records| - 1]) + (if IsMatched(records[|records| - 1]) then 1 else 0)
  }

  /** The positions of the unmatched records, in order: increasing, each unmatched, and every
      unmatched record listed. */
  function UnmatchedIndices(records: seq<MatchRecord>): (u: seq<nat>)
    ensures |u| == |records| - CountMatched(records)
    ensures forall k :: 0 <= k < |u| ==> u[k] < |records| && !IsMatched(records[u[k]])
    ensures forall k, l :: 0 <= k < l < |u| ==> u[k] < u[l]
    ensures forall i :: 0 <= i < |records| && !IsMatched(records[i]) ==> i in u
    decreases |records|
  {
    if |records| == 0 then []
    else
      var n := |records| - 1;
      assert forall i :: 0 <= i < n ==> records[..n][i] == records[i];
      UnmatchedIndices(records[..n]) + (if IsMatched(records[n]) then [] else [n])
  }

  /** `{'name': ..., 'region': ...}` of every unmatched record, in order: the k-th sample is that
      of the k-th unmatched record. */
  function UnmatchedSamples(records: seq<MatchRecord>): (s: seq<Sample>)
    ensures |s| == |UnmatchedIndices(records)|
    ensures forall k :: 0 <= k < |s| ==>
      s[k] == Sample(records[UnmatchedIndices(records)[k]].name, records[UnmatchedIndices(records)[k]].region)
    ensures |s| == |records| - CountMatched(records)
    ensures forall i :: 0 <= i < |records| && !IsMatched(records[i]) ==> Sample(records[i].name, records[i].region) in s
    decreases |records|
  {
    if |records| == 0 then []
    else
      var n := |records| - 1;
      var prefix := records[..n];
      assert forall i :: 0 <= i < n ==> prefix[i] == records[i];
      var u := UnmatchedIndices(prefix);
      assert UnmatchedIndices(records) == u + (if IsMatched(records[n]) then [] else [n]);
      assert forall k :: 0 <= k < |u| ==> records[u[k]] == prefix[u[k]];
      UnmatchedSamples(prefix) + (if IsMatched(records[n]) then [] else [Sample(records[n].name, records[n].region)])
  }

  /** `matched / total if total > 0 else 0`. */
  function MatchRate(matched: nat, total: nat): (rate: real)
    requires matched <= total
    ensures total == 0 ==> rate == 0.0
    ensures total > 0 ==> rate * (total as real) == matched as real
    ensures 0.0 <= rate <= 1.0
  {
    if total == 0 then 0.0
    else
      var rate := (matched as real) / (total as real);
      assert rate * (total as real) == matched as real;
      ScaleMonotone(rate, 1.0, total as real);
      rate
  }

  /** `xs[:10]`. */
  function FirstTen<T>(xs: seq<T>): (r: seq<T>)
    ensures r <= xs && |r| == if |xs| <= 10 then |xs| else 10
  {
    if |xs| <= 10 then xs else xs[..10]
  }

  /** `get_match_report(ss_records)`. */
  function GetMatchReport(records: seq<MatchRecord>): (rep: MatchReport)
    ensures rep.total == |records| && rep.matched + rep.unmatched == rep.total
    ensures rep.matched == CountMatched(records)
    ensures rep.matchRate == MatchRate(rep.matched, rep.total)
    ensures rep.unmatchedSamples <= UnmatchedSamples(records)
    ensures |rep.unmatchedSamples| == if rep.unmatched <= 10 then rep.unmatched else 10
  {
    var total := |records|;
    var matched := CountMatched(records);
    var rate := MatchRate(matched, total);
    var samples := UnmatchedSamples(records);
    assert |samples| == total - matched;
    MatchReport(total, matched, total - matched, rate, FirstTen(samples))
  }

  /** The social-security record of the Nanjing example: 张, billed in 南京, not yet matched. */
  const ZhangInNanjing: MatchRecord := MatchRecord(ExcelParser.Str("张"), Some("南京"), None)

  /** Matching a single record comes down to its search: a miss leaves it as it was, and a hit
      on a non-zero id records that id. */
  lemma MatchSingle(rec: MatchRecord, ix: Index, pinyinOf: PinyinOf, norm: Normalizer)
    requires rec.name.Str? && rec.name.s != ""
    ensures var m := FindMatch(rec.name.s, RegionText(rec.region), ix, pinyinOf, norm);
      && (m == Miss ==> MatchAll([rec], ix, pinyinOf, norm) == Ok([rec]))
      && (m.Hit? && m.id != 0 ==> MatchAll([rec], ix, pinyinOf, norm) == Ok([rec.(matchedAgentId := Some(m.id))]))
  {
    var r := MatchAll([rec], ix, pinyinOf, norm);
    assert r.Ok? ==> |r.value| == 1 && r.value == [r.value[0]];
  }

  /** The agent dict of the Nanjing example, as the sheet gives it. */
  const ZhangDict: AgentDict := AgentDict(1, Some(ExcelParser.Str("江苏")), Some(ExcelParser.Str("张")))

  /** The dict reads as `Zhang`, so its index is the one the search lemmas above use. */
  lemma ZhangDictIndex(pinyinOf: PinyinOf, norm: Normalizer)
    ensures AgentIndex([ZhangDict], pinyinOf, norm) == Ok(BuildIndex([Zhang], pinyinOf, norm))
  {
    assert ReadAgent(ZhangDict) == Ok(Zhang);
    var infos := MapAll([ZhangDict], ReadAgent);
    assert infos.Ok? && |infos.value| == 1 && infos.value[0] == Zhang;
    assert infos.value == [Zhang];
  }

  /** As written, matching leaves the Nanjing record of 张 unmatched although agent 张 of 江苏
      is the only agent. */
  lemma MatchAsWrittenNanjing(pinyinOf: PinyinOf)
    requires pinyinOf("张") == ["zhang"]
    ensures MatchSocialSecurity([ZhangInNanjing], [ZhangDict], pinyinOf, NormalizeRegionAsWritten) == Ok([ZhangInNanjing])
  {
    ZhangDictIndex(pinyinOf, NormalizeRegionAsWritten);
    FindMatchAsWrittenNanjing(pinyinOf);
    MatchSingle(ZhangInNanjing, BuildIndex([Zhang], pinyinOf, NormalizeRegionAsWritten), pinyinOf, NormalizeRegionAsWritten);
  }

  /** With the corrected normaliser the same record is matched to agent 1. */
  lemma MatchNanjing(pinyinOf: PinyinOf)
    ensures MatchSocialSecurity([ZhangInNanjing], [ZhangDict], pinyinOf, NormalizeRegion) == Ok([ZhangInNanjing.(matchedAgentId := Some(1))])
  {
    ZhangDictIndex(pinyinOf, NormalizeRegion);
    FindMatchNanjing(pinyinOf);
    MatchSingle(ZhangInNanjing, BuildIndex([Zhang], pinyinOf, NormalizeRegion), pinyinOf, NormalizeRegion);
  }

  /** Matching never unmatches: a record that already had a truthy `matched_agent_id` still has
      one afterwards. */
  lemma MatchKeepsMatched(records: seq<MatchRecord>, agents: seq<AgentDict>, pinyinOf: PinyinOf, norm: Normalizer, i: nat)
    requires i < |records| && IsMatched(records[i])
    ensures var r := MatchSocialSecurity(records, agents, pinyinOf, norm); r.Ok? ==> IsMatched(r.value[i])
  {
    if MatchSocialSecurity(records, agents, pinyinOf, norm).Ok? {
      assert MatchOne(records[i], AgentIndex(agents, pinyinOf, norm).value, pinyinOf, norm).Ok?;
    }
  }
}
