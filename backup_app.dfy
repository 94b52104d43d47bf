/** The older, single-file dashboard: its importer mapping (keys kept as
    read), the `uk_region` column built from '|'-separated Jobiqo locations,
    the filter and metrics helpers of its comparison view, and its vacancy
    report. */
module BackupApp {

  import opened Seqs
  import opened Text
  import opened Frames
  import opened RegionParser
  import opened Metrics
  import opened VacancyView
  import AppPrep

  // ---------------------------------------------------------------------------
  // load_importer_mapping / apply_importer_mapping
  // ---------------------------------------------------------------------------

  /** The dictionary built from the mapping rows: rows with a missing or
      blank id are dropped; the id is the key exactly as read, surrounding
      whitespace included, and the name is kept as read (`None` when
      missing); a later row overwrites an earlier one with the same key. */
  function BuildMapping(rows: seq<AppPrep.MappingRow>): (m: map<string, Option<string>>)
    ensures forall k :: k in m ==> Strip(k) != ""
    ensures forall i :: 0 <= i < |rows| && rows[i].id.Some? && Strip(rows[i].id.value) != "" ==> rows[i].id.value in m
  {
    if rows == [] then map[]
    else
      var m := BuildMapping(rows[..|rows| - 1]);
      var row := rows[|rows| - 1];
      assert forall i :: 0 <= i < |rows| - 1 ==> rows[..|rows| - 1][i] == rows[i];
      if row.id.None? || Strip(row.id.value) == "" then m
      else m[row.id.value := row.name]
  }

  /** Mapping row `row` contributes key `k`: its id, exactly as read, is `k`
      and is not blank. */
  predicate GivesRawKey(row: AppPrep.MappingRow, k: string)
  {
    row.id == Some(k) && Strip(k) != ""
  }

  /** A key of the mapping is exactly the unstripped id of some row whose id
      is present and not blank. */
  lemma {:induction false} BuildMappingKeys(rows: seq<AppPrep.MappingRow>, k: string)
    ensures k in BuildMapping(rows) <==> exists i :: 0 <= i < |rows| && GivesRawKey(rows[i], k)
    decreases |rows|
  {
    if rows != [] {
      var front := rows[..|rows| - 1];
      BuildMappingKeys(front, k);
      if exists i :: 0 <= i < |front| && GivesRawKey(front[i], k) {
        var i :| 0 <= i < |front| && GivesRawKey(front[i], k);
        assert rows[i] == front[i];
      }
      if exists i :: 0 <= i < |rows| && GivesRawKey(rows[i], k) {
        var i :| 0 <= i < |rows| && GivesRawKey(rows[i], k);
        if i < |front| {
          assert front[i] == rows[i];
        }
      }
    }
  }

  /** A later row with the same id overwrites an earlier one: a key maps to
      the name of its last row, as read. */
  lemma {:induction false} BuildMappingLastWins(rows: seq<AppPrep.MappingRow>, i: nat)
    requires i < |rows| && rows[i].id.Some? && Strip(rows[i].id.value) != ""
    requires forall j :: i < j < |rows| ==> rows[j].id != rows[i].id
    ensures rows[i].id.value in BuildMapping(rows)
    ensures BuildMapping(rows)[rows[i].id.value] == rows[i].name
    decreases |rows|
  {
    var front := rows[..|rows| - 1];
    if i < |rows| - 1 {
      assert front[i] == rows[i];
      forall j | i < j < |front| ensures front[j].id != front[i].id {
        assert front[j] == rows[j];
      }
      BuildMappingLastWins(front, i);
    }
  }

  /** The ids are looked up stripped, so a key with surrounding whitespace is
      never looked up: removing it from the mapping changes no name. */
  lemma {:induction false} PaddedKeyNeverUsed(m: map<string, Option<string>>, k: string, id: string)
    requires Strip(k) != k
    ensures AppPrep.ImporterName(m, Strip(id)) == AppPrep.ImporterName(m - {k}, Strip(id))
  {
    StripIdempotent(id);
    assert Strip(id) != k;
  }

  /** A mapping row " 42" -> "Acme": as read, importer 42 is shown as its id;
      with stripped keys, as the current dashboard builds them, it is shown
      as "Acme". */
  lemma {:induction false} PaddedIdExample(row: AppPrep.MappingRow)
    requires row == AppPrep.MappingRow(Some(" 42"), Some("Acme"))
    ensures BuildMapping([row]) == map[" 42" := Some("Acme")]
    ensures AppPrep.ImporterName(BuildMapping([row]), "42") == "ID: 42"
    ensures AppPrep.BuildMapping([row]) == map["42" := Some("Acme")]
    ensures AppPrep.ImporterName(AppPrep.BuildMapping([row]), "42") == "Acme"
  {
    PaddedIdStripped(row.id.value);
    NameTrimmed(row.name.value);
    OneRowMapping(row);
    PaddedIdAsRead(row, BuildMapping([row]));
    PaddedIdWhenStripped(row, AppPrep.BuildMapping([row]));
  }

  /** With keys as read, the padded key does not match the stripped id. */
  lemma {:induction false} PaddedIdAsRead(row: AppPrep.MappingRow, m: map<string, Option<string>>)
    requires row == AppPrep.MappingRow(Some(" 42"), Some("Acme"))
    requires m == map[row.id.value := row.name]
    ensures m == map[" 42" := Some("Acme")]
    ensures AppPrep.ImporterName(m, "42") == "ID: 42"
  {
    assert " 42" != "42";
  }

  /** With stripped keys, the stripped id finds its name. */
  lemma {:induction false} PaddedIdWhenStripped(row: AppPrep.MappingRow, m: map<string, Option<string>>)
    requires row == AppPrep.MappingRow(Some(" 42"), Some("Acme"))
    requires Strip(row.id.value) == "42" && Strip(row.name.value) == row.name.value
    requires m == map[Strip(row.id.value) := if row.name.Some? then Some(Strip(row.name.value)) else None]
    ensures m == map["42" := Some("Acme")]
    ensures AppPrep.ImporterName(m, "42") == "Acme"
  {
  }

  /** The name has no surrounding whitespace. */
  lemma {:induction false} NameTrimmed(s: string)
    requires s == "Acme"
    ensures Strip(s) == s
  {
    StripTrimmed(s);
  }

  /** The padded id strips to "42". */
  lemma {:induction false} PaddedIdStripped(s: string)
    requires s == " 42"
    ensures Strip(s) == "42"
  {
    assert LeadingSpaces(s) == 1 by {
      assert s[1..] == "42";
      assert !IsSpace("42"[0]);
    }
    assert TrailingSpaces(s[1..]) == 0 by {
      assert s[1..] == "42";
    }
    StripAt(s, 1, 0);
    assert s[1..|s|] == "42";
  }

  /** The mappings built from a single row with a non-blank id. */
  lemma {:induction false} OneRowMapping(row: AppPrep.MappingRow)
    requires row.id.Some? && Strip(row.id.value) != ""
    ensures BuildMapping([row]) == map[row.id.value := row.name]
    ensures AppPrep.BuildMapping([row])
      == map[Strip(row.id.value) := if row.name.Some? then Some(Strip(row.name.value)) else None]
  {
    assert [row][..0] == [];
  }

  /** `apply_importer_mapping` of the older dashboard, in place: without an
      `importer_id` column every row gets the name "Unknown"; otherwise the
      stripped id and its mapped name are written into the caller's frame. */
  method ApplyImporterMapping(df: Frame, mapping: map<string, Option<string>>) returns (r: Frame)
    modifies df
    ensures r == df
    ensures ImporterIdCol !in old(df.columns) ==>
      df.Contents() == AppPrep.WithConstantName(old(df.Contents()), Unknown)
    ensures ImporterIdCol in old(df.columns) ==>
      df.Contents() == AppPrep.WithImporterNames(old(df.Contents()), mapping)
  {
    ghost var t := df.Contents();
    if ImporterIdCol !in df.columns {
      var named := AppPrep.WithConstantName(df.Contents(), Unknown);
      df.columns, df.rows := named.columns, named.rows;
      return df;
    }
    df.columns := WithColumn(df.columns, ImporterIdStrCol);
    var withId := (row: Row) => row.(importerIdStr := Strip(row.importerId));
    df.rows := Map(df.rows, withId);
    var withName;
    if mapping != map[] {
      withName := (row: Row) => row.(importerName := AppPrep.ImporterName(mapping, row.importerIdStr));
    } else {
      withName := (row: Row) => row.(importerName := AppPrep.IdPrefix + row.importerIdStr);
    }
    df.rows := Map(df.rows, withName);
    df.columns := WithColumn(df.columns, ImporterNameCol);
    AppPrep.MappingPasses(t, mapping, withId, withName);
    r := df;
  }

  // ---------------------------------------------------------------------------
  // add_uk_regions: parse_location
  // ---------------------------------------------------------------------------

  /** `not location or pd.isna(location)`. */
  predicate EmptyLocation(location: Option<string>)
  {
    location.None? || location.value == ""
  }

  /** The region of one location: the address classifier on the stripped part. */
  function PartRegion(part: string): (r: string)
    ensures r == Unknown || r in RegionNames
  {
    ExtractRegionFromAddress(Some(Strip(part)))
  }

  /** The regions found in the parts of a location, in order; a part whose
      region is "Unknown" contributes nothing. */
  function FoundRegions(parts: seq<string>): (found: seq<string>)
    ensures forall r :: r in found ==> r in RegionNames && r != Unknown
  {
    if parts == [] then []
    else
      var region := PartRegion(parts[|parts| - 1]);
      FoundRegions(parts[..|parts| - 1]) + (if region != Unknown then [region] else [])
  }

  /** The regions `parse_location` finds for a non-empty location. */
  function LocationRegions(location: Option<string>): seq<string>
    requires !EmptyLocation(location)
  {
    FoundRegions(Split(location.value, '|'))
  }

  /** One more part adds its region, when it has one. */
  lemma {:induction false} FoundRegionsStep(parts: seq<string>, i: nat)
    requires i < |parts|
    ensures FoundRegions(parts[..i + 1])
      == FoundRegions(parts[..i]) + (if PartRegion(parts[i]) != Unknown then [PartRegion(parts[i])] else [])
  {
    assert parts[..i + 1][..i] == parts[..i];
  }

  /** The results `parse_location` may return: "Unknown" for an empty
      location or when no part has a region, and otherwise some region found.
      Which one is left to the iteration order of a Python set. */
  predicate AllowedRegion(location: Option<string>, r: string)
  {
    if EmptyLocation(location) then r == Unknown
    else if LocationRegions(location) == [] then r == Unknown
    else r in LocationRegions(location)
  }

  /** `parse_location`: classifies each '|'-separated part and returns an
      element of the set of regions found (`list(set(regions))[0]`), or
      "Unknown". */
  method ParseLocation(location: Option<string>) returns (region: string)
    ensures AllowedRegion(location, region)
    ensures region == Unknown || region in RegionNames
  {
    if EmptyLocation(location) {
      return Unknown;
    }
    var locations := Split(location.value, '|');
    var regions: seq<string> := [];
    for i := 0 to |locations|
      invariant regions == FoundRegions(locations[..i])
    {
      var r := ExtractRegionFromAddress(Some(Strip(locations[i])));
      FoundRegionsStep(locations, i);
      if r != Unknown {
        regions := regions + [r];
      }
    }
    assert locations[..|locations|] == locations;
    if regions != [] {
      var uniqueRegions := set r | r in regions;
      assert regions[0] in uniqueRegions;
      region :| region in uniqueRegions;
      return region;
    }
    return Unknown;
  }

  /** When every region found is the same, that region is the only result. */
  lemma {:induction false} AllowedRegionUnique(location: Option<string>, r: string)
    requires !EmptyLocation(location) && LocationRegions(location) != []
    requires forall j :: 0 <= j < |LocationRegions(location)| ==> LocationRegions(location)[j] == LocationRegions(location)[0]
    ensures AllowedRegion(location, r) <==> r == LocationRegions(location)[0]
  {
  }

  /** A location of a single part is classified exactly as the address
      classifier classifies the stripped part. */
  lemma {:induction false} SinglePartLocation(location: Option<string>, r: string)
    requires !EmptyLocation(location) && '|' !in location.value
    ensures AllowedRegion(location, r) <==> r == PartRegion(location.value)
  {
    SplitNoBar(location.value);
    LocationRegionsOfParts(location, [location.value]);
    FoundRegionsOne(location.value);
    AllowedOfOne(location, PartRegion(location.value), r);
  }

  lemma {:induction false} SplitNoBar(s: string)
    requires '|' !in s
    ensures Split(s, '|') == [s]
  {
  }

  lemma {:induction false} LocationRegionsOfParts(location: Option<string>, parts: seq<string>)
    requires !EmptyLocation(location) && Split(location.value, '|') == parts
    ensures LocationRegions(location) == FoundRegions(parts)
  {
  }

  lemma {:induction false} AllowedOfOne(location: Option<string>, c: string, r: string)
    requires !EmptyLocation(location) && LocationRegions(location) == (if c != Unknown then [c] else [])
    ensures AllowedRegion(location, r) <==> r == c
  {
  }

  lemma {:induction false} AllowedOfTwo(location: Option<string>, c: string, d: string)
    requires !EmptyLocation(location) && LocationRegions(location) == [c, d]
    ensures AllowedRegion(location, d) && FirstFoundRegion(location) == c
  {
  }

  lemma {:induction false} FoundRegionsOne(p: string)
    ensures FoundRegions([p]) == (if PartRegion(p) != Unknown then [PartRegion(p)] else [])
  {
    assert [p][..0] == [];
  }

  lemma {:induction false} FoundRegionsTwo(p: string, q: string)
    ensures FoundRegions([p, q]) == FoundRegions([p]) + (if PartRegion(q) != Unknown then [PartRegion(q)] else [])
  {
    assert [p, q][..1] == [p];
  }

  /** The evidently intended result: the first region found, as the comment
      "Return first valid region found" says, or "Unknown". */
  function FirstFoundRegion(location: Option<string>): (r: string)
    ensures AllowedRegion(location, r)
    ensures !EmptyLocation(location) && LocationRegions(location) != [] ==> r == LocationRegions(location)[0]
  {
    if EmptyLocation(location) || LocationRegions(location) == [] then Unknown
    else LocationRegions(location)[0]
  }

  /** As written, a location of two parts with different regions may be
      given the region of the second part, not of the first. */
  lemma {:induction false} LaterPartMayWin(a: string, b: string)
    requires '|' !in a && '|' !in b
    requires PartRegion(a) != Unknown && PartRegion(b) != Unknown && PartRegion(a) != PartRegion(b)
    ensures AllowedRegion(Some(a + "|" + b), PartRegion(b))
    ensures FirstFoundRegion(Some(a + "|" + b)) == PartRegion(a) != PartRegion(b)
  {
    TwoPartRegions(a, b);
    AllowedOfTwo(Some(a + "|" + b), PartRegion(a), PartRegion(b));
  }

  lemma {:induction false} TwoPartRegions(a: string, b: string)
    requires '|' !in a && '|' !in b
    requires PartRegion(a) != Unknown && PartRegion(b) != Unknown
    ensures LocationRegions(Some(a + "|" + b)) == [PartRegion(a), PartRegion(b)]
  {
    SplitTwo(a, b);
    LocationRegionsOfParts(Some(a + "|" + b), [a, b]);
    FoundRegionsOne(a);
    FoundRegionsTwo(a, b);
    RegionPair(FoundRegions([a]), PartRegion(a), PartRegion(b));
  }

  lemma {:induction false} RegionPair(x: seq<string>, c: string, d: string)
    requires c != Unknown && d != Unknown && x == (if c != Unknown then [c] else [])
    ensures x + (if d != Unknown then [d] else []) == [c, d]
  {
  }

  /** Two '|'-free parts joined by '|' split back into those parts. */
  lemma {:induction false} SplitTwo(a: string, b: string)
    requires '|' !in a && '|' !in b
    ensures Split(a + "|" + b, '|') == [a, b]
  {
    SplitJoin([a, b], '|');
    assert [a, b][1..] == [b];
    assert Join([a, b], '|') == a + "|" + b;
  }

  // ---------------------------------------------------------------------------
  // add_uk_regions
  // ---------------------------------------------------------------------------

  /** `add_uk_regions`, in place: the `uk_region` column is parsed from
      `location_full` when present, else classified from `regions`, else
      "Unknown"; nothing else changes. */
  method AddUkRegions(df: Frame)
    modifies df
    ensures df.columns == WithColumn(old(df.columns), UkRegionCol)
    ensures |df.rows| == |old(df.rows)|
    ensures forall i :: 0 <= i < |df.rows| ==> df.rows[i] == old(df.rows[i]).(ukRegion := df.rows[i].ukRegion)
    ensures LocationFullCol in old(df.columns) ==> forall i :: 0 <= i < |df.rows| ==>
      AllowedRegion(old(df.rows[i]).locationFull, df.rows[i].ukRegion)
    ensures LocationFullCol !in old(df.columns) && RegionsCol in old(df.columns) ==> forall i :: 0 <= i < |df.rows| ==>
      df.rows[i].ukRegion == ExtractRegionFromAddress(old(df.rows[i]).regions)
    ensures LocationFullCol !in old(df.columns) && RegionsCol !in old(df.columns) ==> forall i :: 0 <= i < |df.rows| ==>
      df.rows[i].ukRegion == Unknown
  {
    var rows, columns := df.rows, df.columns;
    if LocationFullCol in columns {
      var out: seq<Row> := [];
      for i := 0 to |rows|
        invariant |out| == i
        invariant forall j :: 0 <= j < i ==> out[j] == rows[j].(ukRegion := out[j].ukRegion)
        invariant forall j :: 0 <= j < i ==> AllowedRegion(rows[j].locationFull, out[j].ukRegion)
      {
        var region := ParseLocation(rows[i].locationFull);
        out := out + [rows[i].(ukRegion := region)];
      }
      df.rows := out;
    } else if RegionsCol in columns {
      df.rows := AddRegionColumn(Table(columns, rows)).rows;
    } else {
      df.rows := Map(rows, (row: Row) => row.(ukRegion := Unknown));
    }
    df.columns := WithColumn(columns, UkRegionCol);
  }

  // ---------------------------------------------------------------------------
  // The comparison view: apply_filters and calculate_metrics
  // ---------------------------------------------------------------------------

  /** A row passes the comparison filters: its event date lies in a
      two-date range (when the event-date column holds dates), and its
      importer, organisation and region are selected (when the selection is
      non-empty and the column exists). */
  predicate ComparisonKeep(dateRange: seq<int>, importer: seq<string>, company: seq<string>, region: seq<string>,
                           columns: seq<string>, dt: bool, row: Row)
  {
    && (|dateRange| == 2 && EventDateCol in columns && dt ==>
          row.eventDate.Some? && dateRange[0] <= row.eventDate.value <= dateRange[1])
    && (|importer| > 0 && ImporterNameCol in columns ==> row.importerName in importer)
    && (|company| > 0 && OrganizationCol in columns ==> row.organization in company)
    && (|region| > 0 && UkRegionCol in columns ==> row.ukRegion in region)
  }

  /** `apply_filters` of the comparison view: the rows passing every active
      filter, in order, with the columns unchanged. */
  function ApplyComparisonFilters(t: Table, dateRange: seq<int>, importer: seq<string>, company: seq<string>,
                                  region: seq<string>, dt: bool): (r: Table)
    ensures r.columns == t.columns
    ensures |r.rows| <= |t.rows|
  {
    var cols := t.columns;
    var dated := FilterIf(t.rows, |dateRange| == 2 && EventDateCol in cols && dt,
      (row: Row) => |dateRange| == 2 && row.eventDate.Some? && dateRange[0] <= row.eventDate.value <= dateRange[1]);
    var byImporter := FilterIf(dated, |importer| > 0 && ImporterNameCol in cols,
      (row: Row) => row.importerName in importer);
    var byCompany := FilterIf(byImporter, |company| > 0 && OrganizationCol in cols,
      (row: Row) => row.organization in company);
    var byRegion := FilterIf(byCompany, |region| > 0 && UkRegionCol in cols,
      (row: Row) => row.ukRegion in region);
    Table(cols, byRegion)
  }

  /** A row is kept exactly when it is in the input and passes every active
      filter. */
  lemma {:induction false} ComparisonFiltersMembers(t: Table, dateRange: seq<int>, importer: seq<string>, company: seq<string>,
                                                    region: seq<string>, dt: bool, row: Row)
    ensures row in ApplyComparisonFilters(t, dateRange, importer, company, region, dt).rows <==>
      row in t.rows && ComparisonKeep(dateRange, importer, company, region, t.columns, dt, row)
  {
  }

  /** The comparison filters keep the rows they keep in table order. */
  lemma {:induction false} ComparisonFiltersInOrder(t: Table, dateRange: seq<int>, importer: seq<string>, company: seq<string>,
                                                    region: seq<string>, dt: bool)
    ensures Subsequence(ApplyComparisonFilters(t, dateRange, importer, company, region, dt).rows, t.rows)
  {
    var cols := t.columns;
    FilterIf4Subsequence(t.rows,
      |dateRange| == 2 && EventDateCol in cols && dt,
      (row: Row) => |dateRange| == 2 && row.eventDate.Some? && dateRange[0] <= row.eventDate.value <= dateRange[1],
      |importer| > 0 && ImporterNameCol in cols, (row: Row) => row.importerName in importer,
      |company| > 0 && OrganizationCol in cols, (row: Row) => row.organization in company,
      |region| > 0 && UkRegionCol in cols, (row: Row) => row.ukRegion in region);
  }

  /** On a table without vacancy start and end dates, the comparison filters
      keep the same rows as the current dashboard's filter given the same
      date range, importers, companies and regions. */
  lemma {:induction false} ComparisonAgreesWithDashboard(t: Table, dateRange: seq<int>, importer: seq<string>, company: seq<string>,
                                      region: seq<string>, dt: bool, row: Row)
    requires StartDateCol !in t.columns
    ensures var f := AppPrep.Filters(dateRange, importer, company, region, [], [], "");
      row in ApplyComparisonFilters(t, dateRange, importer, company, region, dt).rows
      <==> row in AppPrep.Kept(t.rows, f, t.columns, dt)
  {
    var f := AppPrep.Filters(dateRange, importer, company, region, [], [], "");
    AppPrep.KeptMembers(t.rows, f, t.columns, dt, row);
    SameKeep(f, t.columns, dt, row);
    ComparisonFiltersMembers(t, dateRange, importer, company, region, dt, row);
  }

  /** Without start dates, an upgrade selection or a search term, the
      dashboard's filter keeps exactly the rows the comparison filter keeps. */
  lemma {:induction false} SameKeep(f: AppPrep.Filters, columns: seq<string>, dt: bool, row: Row)
    requires StartDateCol !in columns && f.occupation == [] && f.upgrades == [] && f.jobTitle == ""
    ensures AppPrep.Keep(f, columns, dt, row) <==>
      ComparisonKeep(f.dateRange, f.importer, f.company, f.region, columns, dt, row)
  {
    assert AppPrep.ActiveOk(f, columns, row);
    assert AppPrep.OccupationOk(f, columns, row);
    assert AppPrep.UpgradesOk(f, columns, row);
    assert |Strip(f.jobTitle)| == 0;
    assert AppPrep.TitleOk(f, columns, row);
  }

  /** `calculate_metrics` of the comparison view: the number of distinct
      vacancies and the click and apply-start totals (every row is a click
      when there are no event names). */
  function ComparisonMetrics(t: Table): (m: (nat, nat, nat))
    requires EntityIdCol in t.columns || |t.columns| > 0
    ensures m.0 == |set row | row in t.rows :: row.entityId|
    ensures EventNameCol in t.columns ==> m.1 == CountEvent(t.rows, JobVisit) && m.2 == CountEvent(t.rows, JobApplyStart)
    ensures EventNameCol !in t.columns ==> m.1 == |t.rows| && m.2 == 0
  {
    VacancyCount(t.rows);
    var numVacancies := |Vacancies(t.rows)|;
    if EventNameCol in t.columns then (numVacancies, CountEvent(t.rows, JobVisit), CountEvent(t.rows, JobApplyStart))
    else (numVacancies, |t.rows|, 0)
  }

  /** The comparison metrics agree with the vacancy report: one record per
      vacancy, and the same click and apply-start totals. */
  lemma {:induction false} ComparisonMetricsMatchReport(t: Table)
    requires EntityIdCol in t.columns || |t.columns| > 0
    ensures ComparisonMetrics(t).0 == |Records(t, Embedded)|
    ensures ComparisonMetrics(t).1 == SumOf(Records(t, Embedded), RecordClicks)
    ensures ComparisonMetrics(t).2 == SumOf(Records(t, Embedded), RecordApplies)
  {
    VacancyCount(t.rows);
    RecordIds(t, Embedded);
    ReportTotals(t, Embedded);
  }

  // ---------------------------------------------------------------------------
  // create_vacancy_view
  // ---------------------------------------------------------------------------

  /** `create_vacancy_view` of the older dashboard: for each row of
      `drop_duplicates` on the vacancy id, the click and apply-start rows of
      that vacancy are counted and the details are read from the row; the
      report is then sorted by clicks, most first. */
  method CreateVacancyView(t: Table) returns (view: Option<seq<VacancyRecord>>)
    requires EntityIdCol in t.columns || |t.columns| > 0
    ensures view.None? <==> t.rows == []
    ensures view.Some? ==> view.value == VacancyReport(t, Embedded)
  {
    var jobDetails := DropDuplicates(t.rows);
    var records: seq<VacancyRecord> := [];
    for i := 0 to |jobDetails|
      invariant records == RecordsOf(t, Embedded, jobDetails[..i])
    {
      var job := jobDetails[i];
      var jobId := job.entityId;
      var clicks := Count(ClickIds(t), jobId);
      var applies := Count(ApplyIds(t), jobId);
      var record := VacancyRecord(TitleCell(t.columns, job), OrganisationCell(Embedded, t.columns, job),
                                  jobId, StartDateCell(t.columns, job), EndDateCell(t.columns, job),
                                  RegionCell(Embedded, t.columns, job), clicks, applies, Ratio(applies, clicks));
      RecordOfCells(t, Embedded, job);
      RecordsOfStep(t, Embedded, jobDetails, i);
      records := records + [record];
    }
    assert jobDetails[..|jobDetails|] == jobDetails;
    view := SortByTotalClicks(records);
    EmptyTableRaises(t, Embedded);
  }
}
