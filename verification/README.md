# Insurance-agent KPI and reconciliation core, in Dafny

This project models the backend core of an insurance-agency KPI dashboard. The backend loads a
workbook of agent figures (income, FYP, APE and FYC for 2022–2025), points transactions and
employer social-security bills. It matches the bills to agents by name and region, stores all of
it, and answers three analyses:

- **Margin.** The margin is FYC minus income, net points and employer social security. It is reported
  per group, as a ranking on one dimension or as a row × column cross table with a `合计` column.
- **Cohort retention.** Agents are followed from the year they joined.
- **Efficiency trend.** Per group and year, the producers' average of a metric and its change
  against the last producing year.

The model follows the source module by module:

| Dafny module | models |
|---|---|
| `Schemas` | the agent record, its defaults and the five FYP/APE tier bands with `get_tier` |
| `DataStore` | the query semantics of `get_agents`, the tier condition, `get_agents_by_group`, the points and social-security summaries and the upsert/replace semantics of `save_data`, as pure functions over in-memory tables |
| `ExcelParser` | agent-id normalisation, region extraction from a bill name, the social-security row filter and the id-mapping sheet from its cells |
| `DataMatcher`, `Levenshtein` | reading the agent dicts, region aliases and compatibility, pinyin similarity by edit distance (the row-by-row DP as a method with loop invariants), the keyed agent index, the three-tier search, match application and the match report |
| `KpiFields`, `KpiMargin`, `KpiRetention`, `KpiEfficiency` | the KPI engine |
| `Wrappers`, `Seqs`, `Text`, `Grouping`, `OrderedDict`, `StableSort` | the Python behaviours the source relies on: `Option`/`Result`, sums and filters, string helpers, `defaultdict(list)` grouping in first-seen order, `dict` insertion order with overwrite in place, and `list.sort(reverse=True)` as a stable sort |

A few conventions run through the model:

- Money is exact `real`. The four numbers the margin loop adds to an agent dict are a `Number`: the int `0` of an `or 0` or `.get(..., 0)` fallback, or a float. The two differ only under `str()`, where the int gives `"0"`.
- A row's `<name>_<year>` columns are a `ByYear` record. `.get(col, 0) or 0` reads 0 for a year without a column.
- The agents table is a sequence sorted by `agent_id`, the order in which a table scan meets an `INTEGER PRIMARY KEY` table.
- Three foreign functions are parameters the model does not look into:
  - `lazy_pinyin` (`PinyinOf`);
  - Python's `float(text)` (`FloatParser`);
  - `str()` of a float (`FloatText`).
- The matcher takes its region normaliser as a parameter (`Normalizer`). The program is the
  instance `NormalizeRegionAsWritten`; `NormalizeRegion` is the corrected normaliser (see
  "Findings"). Each contract of the index, the search and the matching holds for both.
- An agent dict saves only the columns it carries (`Parsed.agentColumns`). Every other column of
  the row keeps its stored value, or the table default for a new id.
- Crashes of the source are error outcomes of the model:
  - a filter naming a year column the table does not have (`QueryError`);
  - a truthy non-text name or region reaching the regex or `_normalize_region`, on either a record or an agent dict (an empty 地域 cell of the agent sheet is NaN, which is truthy), or an `('id', agent_id)` index entry reaching `_normalize_region` (`MatchError`);
  - a UID cell of the mapping sheet whose text is no integer (`MappingError`).

## Model

| member | source | states |
|---|---|---|
| Schemas.NewAgent | backend/models/schemas.py:10-41 | an `Agent` built from its id alone has every per-year income, FYP, APE and FYC 0, every MD flag false and no region, education, join date or peer flag |
| Schemas.TiersContiguous | backend/models/schemas.py:120-126 | the five bands start at 0, each ends where the next begins, the last is unbounded, and the labels are distinct |
| Schemas.GetTier | backend/models/schemas.py:129-134 | the result is always one of the five labels; it is the label of any band holding the amount; a negative amount gets `50万+` |
| Schemas.BandsPartition | backend/models/schemas.py:120-133 | a non-negative amount lies in some band and never in two; a negative amount lies in none |
| Schemas.GetTierMonotone | backend/models/schemas.py:120-133 | for 0 ≤ v1 ≤ v2 the band of v1 comes no later than the band of v2 |
| Schemas.GetTierBoundaries | backend/models/schemas.py:129-134 | boundary values go to the upper band (0 → `0-5万`, 50000 → `5-10万`, 500000 → `50万+`) and −1 falls through to `50万+` |
| DataStore.TierCondition | backend/services/data_store.py:359-374 | a condition exists exactly for the five known labels, and it is that label's band |
| DataStore.TierConditionAgreesWithGetTier | backend/services/data_store.py:359-374 | for a non-negative amount a known label's condition holds exactly when `get_tier` gives that label, so exactly one label's condition holds |
| DataStore.TierConditionUnknown | backend/services/data_store.py:369-374 | an unknown or non-text tier value adds no constraint |
| DataStore.GetAgents | backend/services/data_store.py:292-357 | an error exactly when an MD or known-tier filter needs a year column that does not exist; otherwise a stored row is returned iff it satisfies the WHERE clause, and the result keeps agent_id order and holds only stored rows |
| DataStore.GetAgentsNoFilters | backend/services/data_store.py:306-309 | with no filters every row is returned |
| DataStore.GetAgentsFalsyIgnored | backend/services/data_store.py:309-351 | a falsy filter value (None, `""`, 0) gives the same result as leaving the key out |
| DataStore.GetAgentsIgnoresOtherKeys | backend/services/data_store.py:309-351 | a key that is not one of the nine filters, such as `education`, is never applied |
| DataStore.GetAgentsByGroup | backend/services/data_store.py:418-428 | `get_agents` with the group key set in the filters: an error exactly when that query reads a missing year column; otherwise a stored row is returned iff it satisfies the filters plus the group condition, in agent_id order; with a truthy group value on an equality column, every returned row has that value in the column |
| DataStore.GetAgentsByGroupUnknownKey | backend/services/data_store.py:426-428 | grouping on a key `get_agents` does not know gives `get_agents` without that key |
| DataStore.PointsSummary | backend/services/data_store.py:430-472 | an agent has an entry iff some point row of the year (and of the id list, when non-empty) is its; granted and used are the reference sums over those rows, used ≥ 0, and net = granted − used |
| DataStore.OtherTypesIgnored | backend/services/data_store.py:444-451 | rows of other transaction types add nothing to granted or used |
| DataStore.SSSummaryAgrees | backend/services/data_store.py:474-515 | a group exists exactly for the matched ids some selected row carries, and it holds the reference sum of company_total over the rows whose service_month starts with the year |
| DataStore.SSSummaryWithIds | backend/services/data_store.py:501-504 | with a non-empty id list, the unmatched (NULL) group is absent |
| DataStore.Flag | backend/services/data_store.py:155-158 | the stored MD flag is 0 or 1, and 1 exactly when the parsed flag is true |
| DataStore.ToRow | backend/services/data_store.py:153-158 | the values written for an agent keep its id and amounts, and each MD flag is coerced to 0/1 |
| DataStore.ColumnsDetermineRow | backend/services/data_store.py:32-64 | two rows with the same agent_id and the same value in every table column are the same row |
| DataStore.StoredOrDefault | backend/services/data_store.py:32-64 | the row an upsert starts from: the stored row of the id, or, for a new id, the table defaults (0 for amounts and MD flags, NULL elsewhere) in every column |
| DataStore.MergeRow | backend/services/data_store.py:160-168 | the row after `DO UPDATE SET` keeps its agent_id; each column listed by the dict takes the dict's value and every other column keeps its old value |
| DataStore.MergeTwice | backend/services/data_store.py:160-168 | writing the same columns twice leaves only the second write |
| DataStore.Upsert | backend/services/data_store.py:160-168 | after an insert-or-update the table stays sorted by id; the agent's row holds the dict's value in each listed column and its stored value (or the default, for a new id) in every other; every other id keeps its row |
| DataStore.UpsertFind | backend/services/data_store.py:160-168 | looking up the upserted id finds the old row (or the defaults) merged with the dict's columns; any other id finds what it found before |
| DataStore.UpsertAllFind | backend/services/data_store.py:146-171 | after the upserts an uploaded id holds its stored row (or the defaults) merged with its last parsed agent's columns, and an id the upload does not mention keeps its stored row |
| DataStore.Replace | backend/services/data_store.py:221-226 | `INSERT OR REPLACE` on a mapping unique on both columns: afterwards the new pair is present, both columns stay unique, and exactly the old pairs clashing on neither column survive |
| DataStore.SaveData | backend/services/data_store.py:122-231 | the points and social-security rows are appended, every parsed agent can be looked up, the mapping stays unique, and the counts are the input sizes with `agents_updated` 0 |
| DataStore.ReplaceAllMembers | backend/services/data_store.py:220-226 | after the replaces a pair is present iff it is an entry that no later entry clashes with on pe_id or uid, or an old row that no entry clashes with |
| DataStore.SaveDataMapping | backend/services/data_store.py:220-226 | after a save a parsed pair is stored iff no later parsed pair has its uid, and an older row not among them stays iff no parsed pair has its pe_id or uid |
| DataStore.SaveDataAgents | backend/services/data_store.py:146-171 | after a save an uploaded id holds, in each column the sheet carries, its last parsed agent's value and in every other column what it held before (or the default); ids absent from the upload are untouched |
| ExcelParser.NormalizeAgentId | backend/services/excel_parser.py:183-202 | missing or blank text gives None; stripped all-digit text gives its value; any result is one of the three readings (digits, digits after removing `.0`, or an integral `float`) |
| ExcelParser.NormalizeAgentIdDotZero | backend/services/excel_parser.py:187-192 | digits followed by `.0`, padded on either side with any whitespace `str.strip()` removes, give the digits' value |
| ExcelParser.NormalizeAgentIdNonNumeric | backend/services/excel_parser.py:195-202 | text that no reading accepts gives None |
| ExcelParser.RemoveDotZeroSuffix | backend/services/excel_parser.py:191-192 | `replace('.0', '')` on dot-free digits followed by `.0` gives back the digits |
| ExcelParser.ExtractRegion | backend/services/excel_parser.py:267-284 | the result is a listed region contained in the bill name, namely the first in list order, or `其他` when none is contained |
| ExcelParser.ExtractRegionOfName | backend/services/excel_parser.py:280-282 | a bill name that is exactly a listed region is that region, unless an earlier listed name is part of it |
| ExcelParser.SafeFloat | backend/services/excel_parser.py:258-265 | a missing cell gives 0, a number itself, and text its `float()` value or 0 |
| ExcelParser.RowRecord | backend/services/excel_parser.py:223-238 | the record takes the name and service month from their columns and company_total from the third cell from the end; a region exists exactly when the bill name cell does, and is extracted from its text |
| ExcelParser.KeptIndices | backend/services/excel_parser.py:215-243 | the positions of the rows the loop keeps (no header, wide enough, named, company_total > 0): strictly increasing, each a kept row, and every kept row listed |
| ExcelParser.ParseSocialSecurity | backend/services/excel_parser.py:204-245 | one record per kept row in sheet order: the k-th record is the record of the k-th kept row, each with a name and a positive company_total |
| ExcelParser.ParseSocialSecurityMembers | backend/services/excel_parser.py:204-245 | every kept row's record is in the result, and every record in it is that of some kept row |
| ExcelParser.ParseSocialSecuritySkipsHeaders | backend/services/excel_parser.py:217-220 | rows whose first cell is missing, starts with `注` or is `序号` produce no record |
| ExcelParser.ParseMappingLastWins | backend/services/excel_parser.py:247-256 | each pe_id maps to the uid of its last complete row, incomplete rows add nothing, and the keys are distinct |
| ExcelParser.Truncate | backend/services/excel_parser.py:254 | `int()` of a float truncates toward zero: the result is the integer between 0 and x that is less than 1 away from x |
| ExcelParser.ReadMappingRow | backend/services/excel_parser.py:252-254 | a row with a missing cell is incomplete; otherwise pe_id is the cell's text (`str()` of a number is a parameter) and uid is the truncated number or the integer the text spells; an error exactly when both cells are present and the UID text spells no integer |
| ExcelParser.ParseMappingCells | backend/services/excel_parser.py:247-256 | an error iff some row's UID conversion raises; otherwise the keys are distinct and each pe_id holds the uid of its last complete row |
| OrderedDict.Put | backend/services/data_matcher.py:100-103 | `d[k] = v` stores v under k, overwriting in place (same key positions) when k is present and appending otherwise |
| OrderedDict.FromPairsLastWins | backend/services/data_matcher.py:85-105 | after writing pairs one by one each key holds the value of its last pair, and the keys are distinct |
| Levenshtein.LevenshteinDistance | backend/services/data_matcher.py:204-222 | the DP returns the edit distance of the recursive definition |
| Levenshtein.NextRow | backend/services/data_matcher.py:213-220 | one DP row: from the distances of a prefix of `s1` to every prefix of `s2`, the distances of the prefix one character longer |
| Levenshtein.DistSymmetric | backend/services/data_matcher.py:206-207 | swapping the arguments does not change the distance |
| Levenshtein.DistSelf | backend/services/data_matcher.py:204-222 | a string is at distance 0 from itself |
| Levenshtein.DistZero | backend/services/data_matcher.py:204-222 | distance 0 only between equal strings |
| Levenshtein.DistBounds | backend/services/data_matcher.py:209-222 | the distance is at most the longer length and at least the difference of the lengths |
| DataMatcher.AliasesNonEmpty | backend/services/data_matcher.py:15-41 | the alias table has 66 entries and none is empty |
| DataMatcher.NormalizeRegionAsWritten | backend/services/data_matcher.py:163-173 | as written: empty gives empty; otherwise the region of the first alias in table order contained in the input, or the input when none is |
| DataMatcher.NormalizeRegionAsWrittenNanjing | backend/services/data_matcher.py:169-171 | as written, `南京` (listed under 江苏) normalises to 北京 because the earlier alias `京` occurs in it |
| DataMatcher.NormalizeRegion | backend/services/data_matcher.py:163-173 | corrected: empty gives empty; otherwise the region of the longest contained alias (earliest on ties), or the input when none is |
| DataMatcher.NormalizeRegionOfAlias | backend/services/data_matcher.py:38-41 | a region given by one of its aliases normalises to the region of that alias's first table entry |
| DataMatcher.NormalizeRegionNanjing | backend/services/data_matcher.py:20 | corrected, `南京` normalises to 江苏 |
| DataMatcher.RegionsCompatible | backend/services/data_matcher.py:175-187 | compatible iff either side is empty or both normalise to the same region under the given normaliser |
| DataMatcher.RegionsCompatibleLaws | backend/services/data_matcher.py:175-187 | compatibility is reflexive and symmetric, whatever the normaliser |
| DataMatcher.ToPinyin | backend/services/data_matcher.py:150-161 | an empty name gives `""`, and the result has no upper-case ASCII letter |
| DataMatcher.ToPinyinIgnoresOtherChars | backend/services/data_matcher.py:155-156 | names that agree on their ideographs and letters have the same pinyin |
| DataMatcher.PinyinSimilar | backend/services/data_matcher.py:189-202 | similar iff both are non-empty and 1 − distance / longer length ≥ 0.8 |
| DataMatcher.SimilarityThreshold | backend/services/data_matcher.py:201-202 | for a positive length m, 1 − d/m ≥ 0.8 iff 5·d ≤ m |
| DataMatcher.PinyinSimilarLaws | backend/services/data_matcher.py:189-202 | identical non-empty pinyin is similar, similarity is symmetric, and lengths differing by more than a fifth of the longer are never similar |
| DataMatcher.BuildIndex | backend/services/data_matcher.py:78-105 | the index, keyed by pinyin and normalised region, has distinct keys |
| DataMatcher.BuildIndexLastWins | backend/services/data_matcher.py:85-105 | each index key holds the id of the last agent writing it (regions normalised by the given normaliser), and a key no agent writes is absent |
| DataMatcher.LastWriterKeys | backend/services/data_matcher.py:98-103 | every agent has its `('id', agent_id)` key holding its own id; a `(pinyin, region)` key exists only for an agent with a name |
| DataMatcher.EntryCompatible | backend/services/data_matcher.py:136-146 | for a name key, the compatibility of the regions under the given normaliser; for an `('id', n)` key, an error exactly when the record region is non-empty and n ≠ 0 |
| DataMatcher.Scan | backend/services/data_matcher.py:136-146 | a miss iff no entry is accepted by the tier with a compatible region; otherwise the outcome of the first entry where the scan stops |
| DataMatcher.FindMatch | backend/services/data_matcher.py:107-148 | an exact key hit wins; otherwise the equal-pinyin scan if it finds something; otherwise the similar-pinyin scan; a miss iff there is no exact key and neither scan stops anywhere |
| DataMatcher.FindMatchExact | backend/services/data_matcher.py:130-133 | an agent registered under the record's own key is found by the exact lookup, the last such agent winning |
| DataMatcher.IndexOfZhang | backend/services/data_matcher.py:85-105 | one agent 张 of 江苏 gives the index holding its `(pinyin, region)` key and then its `('id', 1)` key, both with id 1 |
| DataMatcher.FindMatchMissesZhang | backend/services/data_matcher.py:125-148 | a bill for 张 in 南京 misses that agent under any normaliser that keeps both regions non-empty and tells them, and their normal forms, apart |
| DataMatcher.FindMatchAsWrittenNanjing | backend/services/data_matcher.py:125-148 | as written, a bill for 张 in 南京 finds no agent 张 of 江苏 |
| DataMatcher.FindMatchNanjing | backend/services/data_matcher.py:125-148 | corrected, a bill for 张 in 南京 finds agent 张 of 江苏 by the exact key |
| DataMatcher.ReadAgent | backend/services/data_matcher.py:89-103 | an agent dict raises exactly when its region or name cell is truthy but not text, the region first; otherwise the matcher reads the id, the text of each cell (`""` for a falsy one) and whether the name key is present |
| DataMatcher.AgentIndex | backend/services/data_matcher.py:78-105 | an error iff some agent dict raises, namely that of the first one; otherwise distinct keys, each holding the id of its last writer among the agents as read |
| DataMatcher.MatchOne | backend/services/data_matcher.py:62-74 | a falsy name leaves the record alone; a non-text name is an error; otherwise a truthy hit is written to matched_agent_id and only then does the record change |
| DataMatcher.MatchSocialSecurity | backend/services/data_matcher.py:43-76 | an agent that raises fails the call before any record is looked at; otherwise success iff every record matches without error, and then the k-th result is `MatchOne` of the k-th record against the agents' index, keeping names, regions and falsy-name records |
| DataMatcher.MatchFailsOnBlankRegion | backend/services/data_matcher.py:89-92 | an agent whose region cell is empty (NaN) makes the matching fail whatever the records |
| DataMatcher.MatchSingle | backend/services/data_matcher.py:62-76 | a one-record list with a non-empty text name is returned unchanged on a miss and with matched_agent_id set on a truthy hit |
| DataMatcher.ZhangDictIndex | backend/services/data_matcher.py:85-105 | the agent dict 张 of 江苏 reads without error and gives the index of the typed agent of the search lemmas |
| DataMatcher.MatchAsWrittenNanjing | backend/services/data_matcher.py:43-76 | as written, the bill of 张 in 南京 stays unmatched against agent 张 of 江苏 |
| DataMatcher.MatchNanjing | backend/services/data_matcher.py:43-76 | corrected, the bill of 张 in 南京 is matched to agent 1, 张 of 江苏 |
| DataMatcher.MatchKeepsMatched | backend/services/data_matcher.py:72-73 | a record that already had a truthy matched id still has one afterwards |
| DataMatcher.UnmatchedIndices | backend/services/data_matcher.py:242-246 | the positions of the unmatched records: strictly increasing, each unmatched, every unmatched record listed, as many as the unmatched count |
| DataMatcher.UnmatchedSamples | backend/services/data_matcher.py:242-246 | the k-th sample is the name and region of the k-th unmatched record, and there are exactly as many samples as unmatched records |
| DataMatcher.MatchRate | backend/services/data_matcher.py:252 | 0 for no records; otherwise rate × total = matched; always within [0, 1] |
| DataMatcher.GetMatchReport | backend/services/data_matcher.py:224-254 | total is the record count, matched + unmatched = total, the rate is `MatchRate`, and the samples are the first ≤ 10 unmatched records |
| Text.StripPadded | backend/services/excel_parser.py:187 | `(l + t + r).strip()` is `t` when l and r are whitespace in Python's `str.isspace()` sense and t neither starts nor ends with whitespace |
| Text.SortedDistinct | backend/services/kpi_calculator.py:142-146 | `sorted(set(xs))`: strictly ascending, holding exactly the strings of xs |
| Grouping.GroupByIsPartition | backend/services/kpi_calculator.py:102-109 | the groups have distinct keys in first-seen order, each holds exactly the items with its key and is non-empty, and together they hold every item once |
| Grouping.GroupBySum | backend/services/kpi_calculator.py:102-115 | the group totals of any per-item term add up to the total over all items |
| Grouping.MapGroupBy | backend/services/kpi_calculator.py:252-258 | the per-group results are keyed by the distinct keys in first-seen order, each computed from exactly the items with its key |
| StableSort.Sort | backend/services/kpi_calculator.py:118 | the result is in descending key order and is a permutation of the input |
| StableSort.SortStable | backend/services/kpi_calculator.py:118 | entries of equal key keep their input order |
| KpiFields.SingleKey | backend/services/kpi_calculator.py:106-109 | a missing or None field gives `未知`; any other value gives its `str()` |
| KpiFields.FalsyKey | backend/services/kpi_calculator.py:137-138 | a missing or falsy field gives `未知`; a truthy one gives its `str()` |
| KpiFields.SingleAndFalsyKeys | backend/services/kpi_calculator.py:106-138 | the two keys differ only on a present falsy non-None value: `""` and 0 stay themselves in a single grouping but become `未知` elsewhere |
| KpiFields.Ratio | backend/services/kpi_calculator.py:77 | x/d for d > 0 (1 when x = d), 0 otherwise |
| KpiMargin.Enrich | backend/services/kpi_calculator.py:64-82 | margin = FYC − income − net points − social security, with absent summaries reading 0; the rate is the float margin/FYC for FYC > 0, else the int 0; the margin is the int 0 exactly when FYC, income, points and social security all are |
| KpiMargin.PointsNet | backend/services/kpi_calculator.py:70 | the net points are granted − used, or 0 for an agent without points rows; they are the int 0 exactly when the agent has no rows or both sums are zero (data_store.py:467-469) |
| KpiMargin.SocialSecurityOf | backend/services/kpi_calculator.py:73 | the agent's social-security total, or 0 without bill rows; it is the int 0 exactly when it is zero (data_store.py:513) |
| KpiMargin.EnrichAll | backend/services/kpi_calculator.py:55-82 | every agent is enriched against the summaries fetched for the ids of all the agents |
| KpiMargin.EnrichAllFromTables | backend/services/kpi_calculator.py:55-73 | each enriched agent carries exactly its granted minus used points and its employer social security of the year |
| KpiMargin.GroupStats | backend/services/kpi_calculator.py:175-213 | an empty group gives all zeros; otherwise the totals are sums of the per-agent terms, the margin rate is total margin / total FYC (0 if FYC ≤ 0), and each average times the count is its total |
| KpiMargin.GroupStatsMarginIdentity | backend/services/kpi_calculator.py:193-199 | a group's total margin is its total FYC minus its total income, points and social security |
| KpiMargin.GroupStatsPermutation | backend/services/kpi_calculator.py:175-213 | the statistics depend only on which agents form the group, not on their order |
| KpiMargin.EnrichedField | backend/services/kpi_calculator.py:79-82 | the four added fields hold the loop's numbers, as the int 0 exactly where the loop holds an int; every other field is the row's column |
| KpiMargin.EnrichedZeroKeys | backend/services/kpi_calculator.py:66-82 | grouping on an added field gives `"0"` for the int zero (no FYC, no bill rows, no points rows) and the float's text for a float, so a zero margin rate of an agent with FYC lands in a different group from one without FYC |
| KpiMargin.StatsOf | backend/services/kpi_calculator.py:111-115 | one statistics entry per group, with the group's name and members |
| KpiMargin.SingleGroupAnalysis | backend/services/kpi_calculator.py:95-120 | the entries are in descending margin-rate order and are a permutation of the per-group statistics, one per distinct key |
| KpiMargin.SingleGroupTies | backend/services/kpi_calculator.py:112-118 | groups of equal margin rate keep first-seen order |
| KpiMargin.SingleGroupPartition | backend/services/kpi_calculator.py:102-115 | each entry is the statistics of exactly the agents with its key (at least one), and every agent's key names an entry |
| KpiMargin.SingleGroupTotals | backend/services/kpi_calculator.py:102-118 | the groups' agent counts, FYC totals and margin totals add up to those over all agents |
| KpiMargin.Cell | backend/services/kpi_calculator.py:152-157 | a cell is empty exactly when no agent has its column, and a filled cell holds the statistics of those agents |
| KpiMargin.CrossRowOf | backend/services/kpi_calculator.py:149-168 | a row has one cell per column, in column order, plus a filled `合计` cell |
| KpiMargin.CrossGroupAnalysis | backend/services/kpi_calculator.py:122-173 | the columns are the sorted distinct column keys followed by `合计`; the rows are the sorted distinct row keys; every row has a cell per column under that column's name |
| KpiMargin.CrossCellContents | backend/services/kpi_calculator.py:136-167 | a cell holds exactly the agents of its row and column (empty iff there are none), and the `合计` cell holds every agent of the row |
| KpiMargin.CrossRowTotals | backend/services/kpi_calculator.py:160-167 | the agent counts, FYC totals and margin totals of a row's cells add up to its `合计` cell |
| KpiMargin.MarginAnalysis | backend/services/kpi_calculator.py:28-93 | an error exactly when the agent query fails; no groups iff no agent is selected; a cross table iff agents exist and a cross dimension is given; otherwise the summary is the statistics of all selected agents with the year |
| KpiMargin.MarginGroups | backend/services/kpi_calculator.py:84-120 | the groups of a single grouping are `SingleGroupAnalysis` of the enriched agents, each group's statistics are those of exactly the agents with its key, and a cross table is `CrossGroupAnalysis` of the enriched agents |
| KpiMargin.MarginSummary | backend/services/kpi_calculator.py:84-93 | the summary counts every selected agent, satisfies the margin identity and is the same whatever the grouping |
| KpiMargin.MarginGroupsAddUp | backend/services/kpi_calculator.py:84-118 | in a single grouping the groups' agent counts, FYC totals and margin totals add up to the summary's |
| KpiRetention.BaseYear | backend/services/kpi_calculator.py:280-283 | the base year is the join year when it is 2022 or later, else 2022 |
| KpiRetention.Share | backend/services/kpi_calculator.py:319 | n/d for d > 0, within [0, 1] when n ≤ d and 1 when n = d; 0 for d = 0 |
| KpiRetention.YearRow | backend/services/kpi_calculator.py:303-321 | a record of a year counts at most the base producers, has non-negative FYP, a count retention within [0, 1], and years_after_join = year − base year |
| KpiRetention.YearRowAsListed | backend/services/kpi_calculator.py:310-312 | count and FYP are those of the base producers still producing in the year |
| KpiRetention.YearRowEmpty | backend/services/kpi_calculator.py:310-311 | a year counts nobody exactly when no base producer produced in it |
| KpiRetention.YearRowShares | backend/services/kpi_calculator.py:319-320 | the two retentions are the year's count and FYP as zero-safe shares of the base figures |
| KpiRetention.YearsFromBase | backend/services/kpi_calculator.py:303-306 | from a base year among the statistics years, the loop visits that year and every later one, in order |
| KpiRetention.CohortOf | backend/services/kpi_calculator.py:277-323 | a cohort is reported iff one of its agents produced in its base year; it carries its join year, base year and a base count between 1 and the cohort size |
| KpiRetention.CohortAsListed | backend/services/kpi_calculator.py:285-289 | base count and base FYP are those of the base-year producers, and the base FYP is positive |
| KpiRetention.LateCohortDropped | backend/services/kpi_calculator.py:280-292 | a cohort joining after 2025 is never reported |
| KpiRetention.CohortTimeline | backend/services/kpi_calculator.py:302-321 | a reported cohort has one record per year from its base year through 2025, in order |
| KpiRetention.BaseYearRecord | backend/services/kpi_calculator.py:303-321 | the base-year record counts every base producer with both retentions 1 |
| KpiRetention.RetentionBounded | backend/services/kpi_calculator.py:310-320 | every record counts at most the base count, with count retention within [0, 1], and both retentions are shares of the base figures |
| KpiRetention.GroupRetentionSound | backend/services/kpi_calculator.py:265-325 | every reported cohort has a non-zero join year and is computed from all agents of that year |
| KpiRetention.GroupRetentionComplete | backend/services/kpi_calculator.py:268-292 | every join year whose agents include a base-year producer is reported |
| KpiRetention.GroupRetentionDistinct | backend/services/kpi_calculator.py:268-277 | the reported cohorts have distinct join years |
| KpiRetention.RetentionAnalysis | backend/services/kpi_calculator.py:221-263 | no groups iff no agent is selected at the default year; otherwise `years_after_join` is [1, 2, 3, 4] |
| KpiRetention.RetentionGroups | backend/services/kpi_calculator.py:244-258 | the groups are the distinct keys of the selected agents in first-seen order, each group's cohorts computed from exactly its own agents |
| KpiEfficiency.MetricOf | backend/services/kpi_calculator.py:380-392 | the three named metrics are recognised, and every other name means FYP |
| KpiEfficiency.TotalMargin | backend/services/kpi_calculator.py:421-438 | the total margin is the one the margin analysis reports for the same agents |
| KpiEfficiency.TotalMarginDecomposes | backend/services/kpi_calculator.py:427-436 | the total margin is the agents' FYC minus their income, net points and social security |
| KpiEfficiency.TotalAsListed | backend/services/kpi_calculator.py:366-392 | the metric total is taken over exactly the year's producers |
| KpiEfficiency.Average | backend/services/kpi_calculator.py:394 | the average times the count is the total |
| KpiEfficiency.Change | backend/services/kpi_calculator.py:397-399 | a change exists iff the previous average exists and is positive, and then change × previous = value − previous |
| KpiEfficiency.Point | backend/services/kpi_calculator.py:364-408 | the count is the number of producers; a year without producers gives value 0 and no change; otherwise the average of the total, with the change against the previous average |
| KpiEfficiency.PointCount | backend/services/kpi_calculator.py:367-370 | the count is the number of producers, and 0 exactly when nobody's FYP is positive |
| KpiEfficiency.TrendPrevious | backend/services/kpi_calculator.py:362-408 | every entry is computed against the average of the last producing entry before it |
| KpiEfficiency.TrendChanges | backend/services/kpi_calculator.py:357-408 | the trend has the four years in order; the first entry has no change; each entry's change is against the last producing average before it |
| KpiEfficiency.LastValueFrom | backend/services/kpi_calculator.py:362-408 | a previous average exists iff an earlier entry produced, and it is the value of the last such entry |
| KpiEfficiency.EfficiencyTrend | backend/services/kpi_calculator.py:327-419 | no groups iff no agent is selected at the default year; otherwise the years are 2022–2025 and the metric name is echoed |
| KpiEfficiency.EfficiencyGroups | backend/services/kpi_calculator.py:349-413 | the groups are the distinct keys of the selected agents in first-seen order, each group's trend computed from exactly its own agents |
| KpiEfficiency.MetricFallback | backend/services/kpi_calculator.py:379-419 | an unknown metric name gives the FYP groups under its own name |

## Left out

- The SQLite connection, the DDL and `clear_all_data`, `get_filter_options`, `get_agent_detail` and `get_data_summary`. The model keeps only the query and save semantics, as pure functions over tables.
- The Flask routes of backend/app.py, uploads and downloads, and `export_to_excel`. These are HTTP and file I/O.
- Reading the workbook with pandas (`parse`, `_parse_agents`, `_parse_points`, `pd.to_numeric`, `pd.to_datetime`). A sheet arrives as rows of cells.
- The `MarginAnalysis`, `RetentionAnalysis` and `EfficiencyTrend` dataclasses of backend/models/schemas.py, which nothing uses, and backend/models/__init__.py, which only re-exports.
- Concurrency: the store is a value, and each call sees one consistent state.
- IEEE-754 arithmetic and Python's `round(x, 2)`/`round(x, 4)`. All amounts, rates and averages are exact rationals, so the partition and retention identities are stated on unrounded values.
- KpiMargin.GroupStats: its totals, margin rate and averages are unrounded; the source rounds them to 2 or 4 decimals.
- KpiRetention.YearRow: `fyp`, `count_retention` and `fyp_retention` are unrounded.
- KpiRetention.CohortOf: `base_fyp` is unrounded.
- KpiEfficiency.Point: `value` and `yoy_change` are unrounded.
- KpiRetention.YearRow: the retentions are stated as shares (`Share`, `Ratio`), whose contracts hold the product identities, rather than as products inline.
- KpiEfficiency.Point: the average is stated as `Average`, whose contract holds the product identity, rather than as a product inline.
- DataMatcher.GetMatchReport: the rate is stated as `MatchRate`, whose contract holds the product identity and the [0, 1] bound, rather than as a product inline.
- DataMatcher.ToPinyin: `lazy_pinyin` is a parameter, so nothing is stated about which syllables a name gives.
- ExcelParser.NormalizeAgentId: Python's `float()` is a parameter, and only ASCII digits count as digits (`str.isdigit` also accepts other Unicode digits). `strip()` removes exactly the characters `str.isspace()` accepts. `pd.isna` on a text cell holding NaN is not modelled; such a cell is a missing cell.
- KpiFields.SingleKey and KpiFields.FalsyKey: `str()` of a float (a REAL column or a float the margin loop adds) is a parameter, since Python's shortest round-trip rendering is not modelled.
- DataStore.GetAgents: SQLite's affinity is modelled for decimal text only; a text parameter spelling an integer with a sign, spaces or leading `+` against an INTEGER column does not match.
- DataStore.SaveData: `updated_at`, the join-date and transaction-time `isoformat()` rewrites and the points and bill columns no query reads are not stored. `agents_inserted` counts every upsert, since SQLite reports one changed row for an insert and for an update alike. One column set (`agentColumns`) stands for the keys of every agent dict of the sheet; a dict key that is not a table column, which makes the INSERT raise, is not modelled. Since `updated_at` is not a column of the model's row, grouping on `updated_at` reads the field as missing and gives `未知`, where the source groups by the timestamps.
- DataStore.ReplaceAll: its own contract states only that the last mapping entry is present and both columns stay unique; which entries and old rows survive the loop, in both directions, is stated by `DataStore.ReplaceAllMembers`.
- DataMatcher.AliasToRegion: that no alias repeats (so the dict keeps every entry in literal order) is read off the table, not proved.
- DataMatcher.MatchSocialSecurity: `matched_count` is computed by the source but never returned, so it is not modelled.
- KpiMargin.SingleGroupAnalysis: the ranking key is the exact margin rate, while the source sorts on `round(rate, 4)`. Two groups whose rates round to the same 4 decimals are tied in the source and keep first-seen order, but the model ranks them by the exact rate.
- KpiMargin.SingleGroupTies: "equal margin rate" means equal exact rates, not equal rates after rounding to 4 decimals, for the same reason.
- ExcelParser.ParseMappingCells: `str()` of a numeric pe_id cell is a parameter (`NumText`), so which text a float cell becomes (`123.0` for a column holding a blank) is not stated, and `int()` of text is a parameter (`IntParser`).

## Findings

| source | as written | input that shows it | evidently intended | confidence | as-written member | corrected member |
|---|---|---|---|---|---|---|
| backend/services/data_matcher.py:169-171 | `_normalize_region` returns the region of the first alias, in table order, that occurs in the input | `_normalize_region("南京")` returns `北京`: the alias `京` of 北京 comes before `南京` (listed under 江苏) and occurs in it | the most specific alias decides, so `南京` normalises to `江苏` | not executed | DataMatcher.NormalizeRegionAsWrittenNanjing | DataMatcher.NormalizeRegionNanjing |
| backend/services/data_matcher.py:125-133 | the record region and the indexed agent region are both normalised first-match before the exact lookup and the compatibility checks | a bill for 张 with bill region 南京 against the single agent 张 of 江苏 (pinyin `zhang`): the keys differ (北京 vs 江苏) and neither scan accepts, so the bill stays unmatched | a bill from a city of the agent's province matches that agent | not executed | DataMatcher.MatchAsWrittenNanjing | DataMatcher.MatchNanjing |

The corrected `DataMatcher.NormalizeRegion` takes the longest contained alias, the earliest on ties. The index, the compatibility check, the search and the matching take the normaliser as a parameter. Their contracts hold for both normalisers. The program is the instance with `NormalizeRegionAsWritten`; `MatchAsWrittenNanjing` and `MatchNanjing` show the two instances disagreeing on one bill.
