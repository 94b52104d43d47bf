# Job performance dashboard — a verified model of its core

The dashboard reads job-board events (one row per visit, apply start or other
event, keyed by vacancy id) and shows, per importer, organisation, region and
occupation, how vacancies perform. This project models in Dafny the parts of
it that compute rather than display:

- **the UK region classifier** (`RegionParser`): the comma form
  "Region, City, Country", then a postcode-area lookup, then a first-match
  keyword scan over an ordered table of twelve regions; plus `add_region_column`
  and `get_region_summary`;
- **the metrics engine** (`Stats`, `Metrics`): distinct-vacancy, click and
  apply counts, guarded ratios, per-vacancy count vectors, medians and
  linear-interpolation percentiles in exact `real` arithmetic, the IQR
  outlier trim, the quartile buckets and the performance colour;
- **row-level derivations and filters** of the current dashboard
  (`AppPrep`): the importer-name mapping, the occupation and upgrades
  columns, the renames of the enriched table and the eight-stage sidebar
  filter;
- **the vacancy report** (`VacancyView`): one record per vacancy from its
  first row, click and apply counts, region, sorted by clicks, and the
  region and organisation filters of the report;
- **the older single-file dashboard** (`BackupApp`): its importer mapping,
  the `uk_region` column built from '|'-separated locations, the filter and
  metrics helpers of its comparison view and its vacancy report;
- **the Google-Sheets variant** (`SheetsApp`): its mapping dictionary,
  importer names, sidebar filter cascade and default display columns;
- **the secrets converter** (`TomlSecrets`): a service-account JSON object
  written as a TOML table, with string values escaped for TOML v1.0.0 basic
  strings, and the basic-string unescape of TOML v1.0.0 ("String" section)
  as the partner of the escape.

Shared pieces: `Seqs` (order-preserving filter, counting, sums, a stable
insertion sort, dictionaries built from pairs), `Text` (Python's
`str.strip`, ASCII `lower`/`upper`, `split`/`join`, substring search) and
`Frames` (the event row, a table as a value, and the `Frame` class whose
rows and columns the dashboard's functions update in place).

Where a pandas function mutates the caller's data frame, the model is a
method on a `Frame` object with a `modifies` clause; where it works on a
copy, the model is a function of a `Table` value, or a method that returns
a fresh `Frame`. Loops of the source (the per-vacancy report loop, the
bucket loop, the filter cascades, the location parser, the TOML emitter) are
methods with loop invariants, each proved against a specification function
whose properties are proved as lemmas.

## Model

| member | source | states |
|---|---|---|
| RegionParser.DNLastWins | utils/region_parser.py:59-93 | "DN" is bound under the East Midlands and again under Yorkshire; the later binding wins, so DN maps to "Yorkshire and the Humber" |
| RegionParser.SYLastWins | utils/region_parser.py:64-93 | "SY" is bound under the West Midlands and again under Wales; SY maps to "Wales" |
| RegionParser.PostcodeKeysAreLetters | utils/region_parser.py:35-97 | every key of the postcode table is one or two upper-case letters, with no digit |
| RegionParser.PostcodeValuesAreRegions | utils/region_parser.py:35-97 | every value of the postcode table is one of the twelve region names |
| RegionParser.MatchAt | utils/region_parser.py:106-107 | a match at a position is one of the pattern's group shapes and does match there; no match means no shape matches there |
| RegionParser.MatchAtFirst | utils/region_parser.py:106-107 | the shape reported is the first one the backtracking matcher tries that matches |
| RegionParser.SearchFrom | utils/region_parser.py:106-107 | `re.search`: a reported match lies at or after the start and the pattern matches there with the reported shape |
| RegionParser.SearchFromLeftmost | utils/region_parser.py:106-107 | the reported match is the leftmost: the pattern matches at no earlier position |
| RegionParser.SearchFromNoMatch | utils/region_parser.py:106-107 | when the search finds nothing, the pattern matches at no position from the start on |
| RegionParser.ExtractPostcodeArea | utils/region_parser.py:100-115 | a missing or empty address gives None; a found area is one or two letters then one or two digits, ends in a digit and occurs in the upper-cased address |
| RegionParser.PostcodeAreaNeverInTable | utils/region_parser.py:106-113 | no extracted area is a key of the postcode table |
| RegionParser.RegionOfCity | utils/region_parser.py:140-145 | exact membership of the city in a keyword list: None iff no list holds it; otherwise a region name whose list holds it |
| RegionParser.CommaCity | utils/region_parser.py:136-139 | the comma form has a city exactly when the text contains a comma |
| RegionParser.CommaCityRegion | utils/region_parser.py:136-146 | a region from the comma check needs a comma and is one of the region names |
| RegionParser.KeywordRegion | utils/region_parser.py:154-157 | None iff no region's keyword occurs in the text; otherwise a region whose keyword list has an occurring keyword |
| RegionParser.ExtractRegionFromAddress | utils/region_parser.py:118-159 | the result is one of the twelve regions or "Unknown"; a missing or empty address gives "Unknown" |
| RegionParser.PostcodeStageNeverDecides | utils/region_parser.py:149-151 | the classifier gives the same answer for every address as the classifier with the postcode stage removed |
| RegionParser.CommaCityFirst | utils/region_parser.py:136-146 | a comma-form city found in the keyword lists decides the region before the postcode and keyword stages |
| RegionParser.LondonKeywordWins | utils/region_parser.py:154-157 | an address the comma check leaves open and that contains a London keyword is placed in London |
| RegionParser.AddRegionColumn | utils/region_parser.py:162-175 | a copy with the `uk_region` column added, one classified value per row, every value a region or "Unknown" |
| RegionParser.RegionSummaryCounts | utils/region_parser.py:178-182 | every label of the classified rows is in the summary with its row count, and the counts add up to the number of rows |
| RegionParser.ExtractRegionCorrected | utils/region_parser.py:149-151 | the corrected classifier also gives a region or "Unknown", and "Unknown" for a missing or empty address |
| RegionParser.CorrectedUsesPostcodeArea | utils/region_parser.py:149-151 | with the correction, an unresolved comma check and an area whose letters are a table key give that key's region |
| RegionParser.CorrectedAgreesOtherwise | utils/region_parser.py:149-151 | the correction changes nothing when no area is found or its letters are not a key |
| RegionExamples.WiganPostcodeArea | utils/region_parser.py:100-115 | the area extracted from "Wigan WN1 1AA" is "WN1", digit included |
| RegionExamples.WiganAsWritten | utils/region_parser.py:118-159 | as written, "Wigan WN1 1AA" is classified as "London" |
| RegionExamples.WiganCorrected | utils/region_parser.py:149-151 | with the correction, "Wigan WN1 1AA" is classified as "North West" |
| Stats.Sorted | app.py:473-485 | the values in ascending order: ascending, the same multiset and the same length |
| Stats.AscendingUnique | app.py:473-485 | two ascending sequences with the same elements are equal, so the sorted order is unique |
| Stats.InterpBetween | app.py:478-479 | a linearly interpolated percentile lies between the order statistics on either side of its position |
| Stats.InterpMonotone | app.py:478-479 | interpolation is monotone in the position |
| Stats.PercentilePermutation | app.py:478-479 | a percentile depends only on the multiset of values, not on their order |
| Stats.PercentileMonotone | app.py:478-479 | lower percentiles never exceed higher ones |
| Stats.Median | app.py:518-519 | the median is the 50th percentile: the middle value for an odd count, the mean of the two middle values for an even one |
| Stats.Mean | app.py:522-526 | the mean times the count is the sum |
| Stats.KeepBetween | app.py:483-485 | membership iff in the input and within [lo, hi] inclusive; never longer than the input |
| Stats.KeepBetweenCounts | app.py:483-485 | the kept values are a subsequence of the input (order kept), and each value within the bounds keeps all its copies while one outside keeps none |
| Stats.RemoveOutliersIqr | app.py:473-485 | fewer than four values are returned unchanged; the trim never lengthens its input (order and copies: Stats.RemoveOutliersKeepsBetween) |
| Stats.RemoveOutliersKeepsBetween | app.py:478-485 | from four values on, the trimmed values are a subsequence of the input, and every value within [Q1 - 1.5 IQR, Q3 + 1.5 IQR] keeps all its copies while every other value keeps none |
| Stats.RemoveOutliersMembers | app.py:478-485 | from four values on, a value survives iff it is in the input and within the fences |
| Stats.MiddleValueExists | app.py:478-479 | from four values on, some input value lies between Q1 and Q3 |
| Stats.RemoveOutliersKeepsMiddle | app.py:478-485 | every value between Q1 and Q3 survives the trim |
| Stats.RemoveOutliersNonEmpty | app.py:473-485 | the trim never empties a non-empty input |
| Stats.TrimmedMean | app.py:522-526 | the mean of the values the trim keeps; fewer than four values give their plain mean |
| Stats.OutlierExample | app.py:473-485 | [1, 2, 3, 4, 100] is trimmed to [1, 2, 3, 4] |
| Metrics.VacancyCount | app.py:490-493 | `nunique` is the number of distinct vacancy ids |
| Metrics.IdsOfEvent | app.py:509-515 | the ids of the rows with an event name: one per such row, each a vacancy |
| Metrics.IdsOfEventCount | app.py:509-510 | an id occurs as often as there are rows carrying that id and that event name |
| Metrics.EntityIdsCount | app.py:492 | an id occurs in the id column as often as there are rows carrying it |
| Metrics.PerVacancySum | app.py:509-515 | a per-vacancy count vector sums to the number of rows with that event |
| Metrics.PerVacancyEntry | app.py:509-515 | the i-th entry is the number of rows carrying the i-th vacancy's id and the event name, and is 0 exactly when no row does |
| Metrics.Ratio | app.py:504 | applies / clicks * 100 when clicks is positive, else 0 |
| Metrics.PerUnit | app.py:575-583 | total / n when n is positive, else 0 |
| Metrics.CalculateMetrics | app.py:488-539 | vacancy count, click and apply totals (all rows and 0 without an event-name column), guarded ratio, medians of the per-vacancy vectors, all 0 without vacancies |
| Metrics.MetricsVectors | app.py:507-515 | the click and apply vectors have one entry per vacancy and sum to the click and apply totals |
| Metrics.MedianWithinRange | app.py:518-519 | the median of a vector lies between its least and greatest value |
| Metrics.TierExclusive | app.py:565-567 | every click count is in some bucket, and in only one when Q1 <= Q3 |
| Metrics.TierPartition | app.py:565-585 | the three buckets' counts add up to the number of vacancies and their sums to the total |
| Metrics.MakeBucket | app.py:575-583 | one bucket: counts, and the ratio and per-vacancy averages guarded against division by zero |
| Metrics.CalculateQuartileMetrics | app.py:541-587 | None iff there is no event-name column or fewer than four vacancies; otherwise the three buckets by the Q1/Q3 masks |
| Metrics.Buckets | app.py:570-585 | the bucket loop fills exactly the keys top, middle and bottom, each with its bucket |
| Metrics.QuartilesConserve | app.py:561-587 | the buckets account for every vacancy, click and apply |
| Metrics.TopNonEmpty | app.py:565 | the top bucket is never empty: the greatest click count reaches Q3 |
| Metrics.AllEqualTop | app.py:565-567 | equal click counts put every vacancy in the top bucket and none in the others |
| Metrics.PerformanceColor | app.py:590-602 | white exactly when a value is missing or the average is 0 |
| Metrics.PerformanceColorPositive | app.py:596-602 | for a positive average: green iff above 110 %, red iff below 90 %, yellow iff in between |
| Metrics.PerformanceColorNegative | app.py:596-602 | for a negative average the green and red comparisons flip |
| Metrics.MetricsExample | app.py:488-539 | (V1 visit, V1 visit, V1 apply, V2 visit): 2 vacancies, 3 clicks, 1 apply, click vector [2, 1], median 1.5 |
| Frames.EntityColumn | app.py:490 | the vacancy-id column is one of the columns: `entity_id` when present, else the first column |
| Frames.Frame.Copy | app.py:225 | `df.copy()`: a fresh frame with the same contents |
| AppPrep.BuildMapping | app.py:199-206 | every key is stripped and non-empty |
| AppPrep.BuildMappingKeys | app.py:200-204 | a key exactly when it is the stripped id of some row whose id is present and not blank |
| AppPrep.BuildMappingLastWins | app.py:203-206 | the last row with a given stripped id decides its value: that row's stripped name, or a missing name |
| AppPrep.ImporterName | app.py:228-234 | a mapped id gives its name; an unmapped id, or one mapped to a missing name, gives "ID: " + the id |
| AppPrep.ImporterNameShape | app.py:228-234 | the shown name is a mapped name or the prefixed id; an empty mapping always gives the prefixed id |
| AppPrep.WithImporterNames | app.py:224-234 | columns `importer_id_str` and `importer_name` added; each row gets its stripped id and the name of it |
| AppPrep.WithImporterNamesIdempotent | app.py:218-236 | applying the mapping a second time changes nothing |
| AppPrep.ApplyImporterMapping | app.py:218-236 | without an `importer_ID` column the caller's frame gets "Unknown" in place; otherwise a fresh copy gets the mapped names and the input is unchanged |
| AppPrep.BlankIsStripEmpty | app.py:283-290 | a cell is blank exactly when it is missing or strips to "" |
| AppPrep.Occupation | app.py:283-288 | a blank cell gives "Unknown"; otherwise the stripped first bar-separated segment, which holds no bar |
| AppPrep.OccupationFirstSegment | app.py:283-288 | the occupation of seg, a bar, then any rest is seg when seg is stripped and holds no bar |
| AppPrep.OccupationBlankSegment | app.py:283-288 | a blank first segment gives "", not "Unknown" |
| AppPrep.AddOccupationColumn | app.py:281-290 | the caller's frame gains the occupation column, one value per row, "Unknown" when the source column is absent |
| AppPrep.UpgradesList | app.py:254-256 | a cell is blank exactly when its list of upgrades is empty |
| AppPrep.UpgradesListNames | app.py:254-256 | every parsed upgrade name is stripped and holds no bar |
| AppPrep.UpgradesRoundTrip | app.py:254-256 | joining stripped names without bars by bars and parsing gives them back, for every such list except `[""]`, whose join is blank |
| AppPrep.AllUpgradesMembers | app.py:247-251 | an upgrade name is collected exactly when some row lists it |
| AppPrep.CollectUpgrades | app.py:247-251 | the loop collects exactly the set of all upgrade names |
| AppPrep.ParseUpgrades | app.py:238-258 | without an `upgrades` column the frame is returned as is; otherwise a fresh frame with the parsed list per row |
| AppPrep.PrepareEnrichedData | app.py:260-279 | the rows are unchanged and each column is renamed by the rename table |
| AppPrep.PrepareEnrichedIdempotent | app.py:265-277 | preparing twice is preparing once |
| AppPrep.PrepareEnrichedProvidesEntityId | app.py:265-277 | an `entity_id_str` column becomes `entity_id` |
| AppPrep.KeptMembers | app.py:412-467 | a row is kept exactly when it is in the input and passes every active filter |
| AppPrep.KeptIsFilter | app.py:412-467 | the kept rows are the order-preserving filter of the input by the combined mask |
| AppPrep.RunStage | app.py:418-465 | one mask assignment of the cascade keeps the rows passing that stage as well |
| AppPrep.ApplyFiltersToData | app.py:412-467 | None keeps every row; otherwise the rows passing every filter, in order; columns unchanged |
| AppPrep.NoActiveFilterKeepsAll | app.py:415-465 | with no date range, empty selections and a blank title every row is kept |
| AppPrep.MissingVacancyDatesDropped | app.py:425-430 | with a date range and both vacancy-date columns, a row missing a start or end date is dropped |
| AppPrep.TitleFilterIgnoresCase | app.py:462-465 | the title filter gives the same answer for the search term in any case |
| VacancyView.FirstRowIndex | vacancy_view.py:41-44 | the index of the first row carrying the vacancy id |
| VacancyView.DropDuplicatesFirst | vacancy_view.py:41-44 | one kept row per vacancy, in order of first appearance, each the vacancy's first row |
| VacancyView.RegionCell | vacancy_view.py:54-55 | on the standalone page the region is a region name or "Unknown" |
| VacancyView.RecordOf | vacancy_view.py:45-67 | a record carries its vacancy id, the id's click and apply counts and the guarded ratio |
| VacancyView.RecordsOf | vacancy_view.py:43-67 | one record per first row, in the same order |
| VacancyView.CreateVacancyView | vacancy_view.py:29-73 | fails (`None`) exactly on a table without rows; otherwise the loop builds the report VacancyView.VacancyReport |
| VacancyView.SortByTotalClicks | vacancy_view.py:70-73 | the sort of the built frame fails exactly when there are no records; otherwise a permutation of the records, most clicks first |
| VacancyView.VacancyReport | vacancy_view.py:70-73 | one record per vacancy, and an empty report exactly for a table without rows |
| VacancyView.EmptyTableRaises | vacancy_view.py:70-73 | the sort as written fails exactly on a table without rows, where the intended report is empty, and otherwise gives that report |
| VacancyView.RecordIds | vacancy_view.py:36-44 | the record ids are the vacancies, once each, in order of first appearance |
| VacancyView.SumOfRecordClicks | vacancy_view.py:45-67 | summing the records' counts is summing the per-id counts of the first rows |
| VacancyView.DropDuplicatesIds | vacancy_view.py:36-44 | the ids of the kept rows are the vacancies |
| VacancyView.ReportTotals | vacancy_view.py:29-30 | total clicks are the `job_visit` rows (every row without an event-name column), total apply starts the `job_apply_start` rows (0 without it) |
| VacancyView.SortedReport | vacancy_view.py:73 | the report is a permutation of the records, one per vacancy, most clicks first, with the same totals |
| VacancyView.ReportKeepsTieOrder | vacancy_view.py:73 | records with equal clicks keep the order in which their vacancies first appear, as a stable descending sort leaves them |
| VacancyView.RecordCounts | vacancy_view.py:29-49 | a record's clicks (applies) are the number of rows carrying its id and the event name `job_visit` (`job_apply_start`); without event names every row of the id is a click and there are no applies |
| VacancyView.RecordClicksPositive | vacancy_view.py:45-67 | a record has clicks (applies) exactly when its id occurs among the click (apply) rows |
| VacancyView.FilterVacancies | vacancy_view.py:106-110 | a record is kept iff it is in the report and each non-empty selection holds its value |
| VacancyView.FilterVacanciesInOrder | vacancy_view.py:106-110 | the filtered report is a subsequence of the report: its sorted order is kept |
| VacancyView.FilterVacanciesNone | vacancy_view.py:106-110 | empty selections keep the whole report |
| VacancyView.FilterVacanciesAll | vacancy_view.py:106-110 | selecting every occurring region and organisation keeps the whole report |
| BackupApp.BuildMapping | app_backup_20260120_220600.py:101-124 | keys kept as read, each non-blank; every valid row's id is a key |
| BackupApp.BuildMappingKeys | app_backup_20260120_220600.py:109-113 | a key exactly when it is, unstripped, the id of some row whose id is present and not blank |
| BackupApp.BuildMappingLastWins | app_backup_20260120_220600.py:113 | the last row with a given id decides its name, as read |
| BackupApp.PaddedKeyNeverUsed | app_backup_20260120_220600.py:141-160 | a key with surrounding whitespace never matches a stripped id: the mapping behaves as if it were absent |
| BackupApp.PaddedIdExample | app_backup_20260120_220600.py:101-160 | mapping id " 42" to "Acme": as written the id shows as "ID: 42"; with stripped keys it shows "Acme" |
| BackupApp.ApplyImporterMapping | app_backup_20260120_220600.py:141-160 | writes into the caller's frame: "Unknown" without an `importer_id` column, else the mapped names or "ID: " + the stripped id |
| BackupApp.PartRegion | app_backup_20260120_220600.py:210-212 | a stripped segment's region is a region name or "Unknown" |
| BackupApp.FoundRegions | app_backup_20260120_220600.py:207-214 | the regions found in the segments, in order, none of them "Unknown" |
| BackupApp.ParseLocation | app_backup_20260120_220600.py:201-225 | the loop result is an allowed region: "Unknown" for an empty location or no region found, else some found region |
| BackupApp.AllowedRegionUnique | app_backup_20260120_220600.py:216-225 | when every segment's region agrees, the result is exactly that region |
| BackupApp.SinglePartLocation | app_backup_20260120_220600.py:201-225 | a location without a bar gets exactly the classifier's region of it |
| BackupApp.FirstFoundRegion | app_backup_20260120_220600.py:216-225 | the corrected choice is allowed and is the first region found |
| BackupApp.LaterPartMayWin | app_backup_20260120_220600.py:216-225 | for two segments with distinct regions, the second segment's region is an allowed result, unlike the first found |
| BackupApp.AddUkRegions | app_backup_20260120_220600.py:199-235 | only `uk_region` changes: parsed from `location_full`, else classified from `regions`, else "Unknown" |
| BackupApp.ApplyComparisonFilters | app_backup_20260120_220600.py:333-354 | the filters keep the columns and never add rows |
| BackupApp.ComparisonFiltersMembers | app_backup_20260120_220600.py:333-354 | a row is kept iff it is in the input, its event date is within the range and each non-empty selection holds its value |
| BackupApp.ComparisonFiltersInOrder | app_backup_20260120_220600.py:333-354 | the kept rows are a subsequence of the table: table order is kept |
| BackupApp.ComparisonAgreesWithDashboard | app_backup_20260120_220600.py:333-354 | without vacancy-date columns the comparison filter keeps exactly the rows the current dashboard's filter keeps |
| BackupApp.ComparisonMetrics | app_backup_20260120_220600.py:357-371 | (distinct ids, visit rows, apply rows), or (distinct ids, all rows, 0) without an event-name column |
| BackupApp.ComparisonMetricsMatchReport | app_backup_20260120_220600.py:357-371 | the counts equal the number of report records and the sums of their click and apply counts |
| BackupApp.CreateVacancyView | app_backup_20260120_220600.py:237-272 | fails (`None`) exactly on a table without rows; otherwise the loop over the first rows builds the report VacancyView.VacancyReport |
| BackupExamples.LondonOrBristol | app_backup_20260120_220600.py:201-225 | for "London" and "UK, Bristol" joined by a bar, "South West" is an allowed result while the first region found is "London" |
| SheetsApp.SheetMapping | app_sheets_version.py:105-114 | without both columns the mapping is empty; every key is non-blank |
| SheetsApp.SheetMappingKeys | app_sheets_version.py:111-112 | a key exactly when it is non-blank and some row's id |
| SheetsApp.SheetMappingLastWins | app_sheets_version.py:111-112 | the last row with an id decides its name |
| SheetsApp.ApplyImporterMapping | app_sheets_version.py:134-141 | writes `importer_name` into the caller's frame: mapped name, else the raw id, "Unknown" without the column |
| SheetsApp.SheetNameFromSheet | app_sheets_version.py:105-141 | an id read from the sheet shows its last name |
| SheetsApp.UnmappedShowsRawId | app_sheets_version.py:139 | an unmapped id shows as itself, where the current dashboard shows "ID: " + id |
| SheetsApp.PassesAll | app_sheets_version.py:242-310 | passing the date stage and all five field stages is passing every filter |
| SheetsApp.PassesStep | app_sheets_version.py:257-310 | each field stage adds its own condition to the stages before it |
| SheetsApp.PassedIsFilter | app_sheets_version.py:242-310 | the rows passing the first k stages are the order-preserving filter of the input |
| SheetsApp.FieldStage | app_sheets_version.py:257-310 | running a field stage on the rows kept so far keeps the rows passing one more stage |
| SheetsApp.FieldSkip | app_sheets_version.py:257-310 | an empty selection or a missing column leaves the rows as they are |
| SheetsApp.DateFilter | app_sheets_version.py:241-255 | the first stage keeps the rows whose event date lies in the chosen range, when the column holds dates and two dates were chosen, and all rows otherwise |
| SheetsApp.SidebarFilters | app_sheets_version.py:242-310 | the cascade keeps the rows passing the date and every field stage, columns unchanged |
| SheetsApp.SidebarFiltersMembers | app_sheets_version.py:242-310 | a row is kept iff it is in the input and passes every filter |
| SheetsApp.SidebarFiltersInOrder | app_sheets_version.py:242-310 | the kept rows are a subsequence of the input |
| SheetsApp.NoSelectionKeepsAll | app_sheets_version.py:242-310 | with no date range and empty selections every row is kept |
| SheetsApp.DefaultColumns | app_sheets_version.py:343-348 | the fixed default list restricted to the columns that exist, in list order |
| SheetsApp.DisplayColumns | app_sheets_version.py:355-358 | a non-empty selection is shown as chosen; an empty one shows every column |
| SheetsApp.DefaultDisplay | app_sheets_version.py:343-358 | the default selection shows only existing columns; none selected shows all |
| TomlSecrets.EscapeIsPerChar | convert_secrets_to_toml.py:17 | the chain of replacements escapes each character on its own |
| TomlSecrets.EscapeHasNoNewline | convert_secrets_to_toml.py:17 | the escaped text holds no raw newline |
| TomlSecrets.EscapeKeepsOthers | convert_secrets_to_toml.py:17 | text without backslash, quote or newline is left unchanged |
| TomlSecrets.EscapeQuotesEscaped | convert_secrets_to_toml.py:17 | every quote of the escaped text is preceded by an odd run of backslashes |
| TomlSecrets.EscapeRoundTrip | convert_secrets_to_toml.py:17 | the basic-string unescape of the escaped text gives back a value without control characters other than tab and newline |
| TomlSecrets.CarriageReturnNotEscaped | convert_secrets_to_toml.py:17 | a carriage return is copied raw, and the result does not read back |
| TomlSecrets.EscapeFullRoundTrip | convert_secrets_to_toml.py:17 | the corrected escape reads back as every value |
| TomlSecrets.EscapeFullAgrees | convert_secrets_to_toml.py:17 | the corrected escape equals the written one on values without control characters other than tab and newline |
| TomlSecrets.LineReadsBack | convert_secrets_to_toml.py:18 | a string entry's line is the bare key, " = \"", the escaped value and a closing quote, and the quoted part reads back as the value |
| TomlSecrets.SecretsToml | convert_secrets_to_toml.py:13-20 | the header, then one line per entry in the object's order |

## Left out

- Reading data: the warehouse client and queries, the Google Sheets reads,
  the CSV and JSON file reads, the Jobiqo export and `merge_jobiqo_data`.
  These are calls into client libraries that are not part of this model. Their
  results enter as parameters: mapping rows, tables, JSON entries.
- The Streamlit interface: panels, tabs, charts, session state, caching,
  downloads, and the option lists offered by the multiselects. The
  selections enter as parameters.
- Output: the converter prints its lines and a closing banner; the model
  builds the sequence of lines and leaves out the banner.
- Dates are day numbers (`Option<int>`, None for a missing or unparseable
  date). Time of day and `pd.to_datetime` coercion are not modelled, and the
  "is the event-date column a datetime" check enters as a boolean.
- Floating point and display: `round(...)` and string formatting are
  presentation. Medians, percentiles, means and ratios are exact `real`.
- Strings are sequences of characters. Case mapping is ASCII only. `\w` and
  `\d` in the postcode pattern are ASCII, and the pattern is a hand-written
  scanner that follows the backtracking order of Python's `re`.
- The title filter's `str.contains` is a plain substring test: a search
  term holding regular-expression metacharacters is matched literally here.
- Missing ids: an `importer_ID` cell that is NaN is rendered by `str()` as
  "nan"; the model takes the id cell as the string `str()` produced.
- Missing vacancy ids: every row is taken to carry a vacancy id. A NaN id
  is not modelled, so neither is pandas' different treatment of it (skipped
  by `nunique` at app.py:493 and app_backup_20260120_220600.py:361, kept by
  `unique` at app.py:513 and 553 and vacancy_view.py:41), nor the
  `IndexError` that `.iloc[0]` raises for it at vacancy_view.py:44.
- Frames.EntityColumn: the requires `EntityIdCol in columns || |columns| > 0`
  (also on the members that take the vacancy-id column from a table) excludes
  a table without columns, where `df.columns[0]` raises `IndexError`
  (app.py:490 and 543, vacancy_view.py:36, app_backup_20260120_220600.py:246
  and 358). Every caller passes the columns of the events query, which are
  never empty.
- The days-active and per-day rates of the vacancy performance tab depend on
  the current date and are not part of this model.
- In the older dashboard `add_uk_regions` runs before `merge_jobiqo_data`,
  so `location_full` is not yet present at that point. The model covers all
  three column choices and leaves the call order to the caller.
- AppPrep.ParseUpgrades: the `all_upgrades` set the source collects is never
  used; it is modelled by AppPrep.CollectUpgrades on its own.
- TomlSecrets.Unescape: the `\UXXXXXXXX` escape of TOML is not decoded (the
  escape never produces it); such text reads as invalid.
- TomlSecrets.Line: a non-string JSON value is written as Python's `str()`
  of it, which enters as the string `JOther.repr`; keys are written bare and
  unescaped, as the source does, and are not checked for TOML validity.
- BackupApp.ParseLocation: `list(set(regions))[0]` depends on Python's set
  iteration order, which is not specified. The model states only that the
  result is one of the regions found (and the only one when all agree).
- VacancyView.CreateVacancyView: pandas' default `sort_values` is not
  stable, so records with equal clicks may come in any order. The model
  sorts by a stable insertion sort, so ties keep the order in which their
  vacancies first appear (VacancyView.ReportKeepsTieOrder), which is what
  `kind="stable"` would give. VacancyView.SortedReport states what holds for
  any order: a permutation, with clicks descending.
- BackupApp.CreateVacancyView: the same holds for the older report's sort.
- RegionParser.AddRegionColumn: the address column is fixed to `regions`,
  the default every caller uses; the `address_column` parameter is not
  modelled. The function requires that column, so the `KeyError` raised on
  a table without it is not modelled.
- Stats.TrimmedMean: the contract pins the value only for inputs of fewer
  than four values; for longer inputs the value is the mean of the trimmed
  values, whose properties are stated on Stats.Mean and the
  RemoveOutliers lemmas.
- SheetsApp.SidebarFilters: the event date of a row is held in the row's
  event-date field, and the `event_data` column name only decides whether the
  date stage runs.

## Findings

| source | as written | input that shows it | evidently intended | confidence | as-written member | corrected member |
|---|---|---|---|---|---|---|
| utils/region_parser.py:106-151 | the extracted postcode area keeps its digits ("WN1"), but the table is keyed by letters ("WN"), so the postcode stage never fires and the keyword scan decides | "Wigan WN1 1AA": the London keyword "n1" occurs in "wn1", giving "London" | look up the letters of the area, giving "North West" | not executed; high, the lookup can never succeed | RegionExamples.WiganAsWritten | RegionExamples.WiganCorrected |
| app_backup_20260120_220600.py:216-225 | the region is `list(set(regions))[0]`, an arbitrary member of the regions found | location "London" and "UK, Bristol" joined by a bar: "South West" is an allowed result | the first region found, "London" | not executed; medium, set order is unspecified | BackupExamples.LondonOrBristol | BackupApp.FirstFoundRegion |
| app_backup_20260120_220600.py:113-152 | mapping keys are kept unstripped while the ids they are matched with are stripped | mapping id " 42" with name "Acme": the id shows as "ID: 42" | strip the keys, as the current dashboard does, showing "Acme" | not executed; medium, depends on the sheet's contents | BackupApp.PaddedIdExample | AppPrep.BuildMapping |
| vacancy_view.py:70-73 | with no rows there are no records, `pd.DataFrame([])` has no columns, and `sort_values('Total Clicks')` raises `KeyError`; the older dashboard's report sorts the same way | a table without rows, as left by filters that match nothing | an empty report | not executed; high, pandas raises on a missing sort column | VacancyView.EmptyTableRaises | VacancyView.VacancyReport |
| convert_secrets_to_toml.py:17 | only backslash, quote and newline are escaped; a carriage return or other control character is copied raw, which a TOML basic string may not hold | a string value "\r" | escape every control character other than tab | not executed; low, service-account values rarely hold one | TomlSecrets.CarriageReturnNotEscaped | TomlSecrets.EscapeFullRoundTrip |
