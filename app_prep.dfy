/** Row-level derivations and the filter of the current dashboard: the
    importer-id to name mapping, the occupation and upgrades columns derived
    from pipe-separated fields, the renaming of enriched-table columns, and
    the multi-predicate row filter. */
module AppPrep {

  import opened Seqs
  import opened Text
  import opened Frames

  // ---------------------------------------------------------------------------
  // load_importer_mapping (the dictionary it builds) and apply_importer_mapping
  // ---------------------------------------------------------------------------

  /** One row of the importer mapping sheet: the id cell as `str()` renders
      it (`None` when missing) and the name cell (`None` when missing). */
  datatype MappingRow = MappingRow(id: Option<string>, name: Option<string>)

  /** The dictionary built from the mapping rows: rows with a missing or
      blank id are dropped, keys and names are stripped, and a later row
      overwrites an earlier one with the same key. A missing name stays
      missing (`None`). */
  function BuildMapping(rows: seq<MappingRow>): (m: map<string, Option<string>>)
    ensures forall k :: k in m ==> Strip(k) == k && k != ""
  {
    if rows == [] then map[]
    else
      var m := BuildMapping(rows[..|rows| - 1]);
      var row := rows[|rows| - 1];
      if row.id.None? || Strip(row.id.value) == "" then m
      else
        StripIdempotent(row.id.value);
        m[Strip(row.id.value) := if row.name.Some? then Some(Strip(row.name.value)) else None]
  }

  /** Mapping row `row` contributes key `k`: its id is present, not blank,
      and `k` once stripped. */
  predicate GivesKey(row: MappingRow, k: string)
  {
    row.id.Some? && Strip(row.id.value) != "" && Strip(row.id.value) == k
  }

  /** A key of the mapping is exactly the stripped id of some row whose id
      is present and not blank. */
  lemma {:induction false} BuildMappingKeys(rows: seq<MappingRow>, k: string)
    ensures k in BuildMapping(rows) <==> exists i :: 0 <= i < |rows| && GivesKey(rows[i], k)
    decreases |rows|
  {
    if rows != [] {
      var front := rows[..|rows| - 1];
      BuildMappingKeys(front, k);
      BuildMappingKeyStep(rows, k);
      var gives := (r: MappingRow) => GivesKey(r, k);
      assert (k in BuildMapping(front)) <==> exists i :: 0 <= i < |front| && gives(front[i]);
      ExistsSnoc(rows, front, gives, k in BuildMapping(rows), k in BuildMapping(front));
    }
  }

  lemma {:induction false} BuildMappingKeyStep(rows: seq<MappingRow>, k: string)
    requires rows != []
    ensures k in BuildMapping(rows)
      <==> k in BuildMapping(rows[..|rows| - 1]) || GivesKey(rows[|rows| - 1], k)
  {
  }

  /** A later row with the same stripped id overwrites an earlier one: a
      key maps to the stripped name of its last row, or to a missing name. */
  lemma {:induction false} BuildMappingLastWins(rows: seq<MappingRow>, i: nat)
    requires i < |rows| && rows[i].id.Some? && Strip(rows[i].id.value) != ""
    requires forall j :: i < j < |rows| ==> !GivesKey(rows[j], Strip(rows[i].id.value))
    ensures Strip(rows[i].id.value) in BuildMapping(rows)
    ensures BuildMapping(rows)[Strip(rows[i].id.value)]
      == if rows[i].name.Some? then Some(Strip(rows[i].name.value)) else None
    decreases |rows|
  {
    var front := rows[..|rows| - 1];
    if i < |rows| - 1 {
      assert front[i] == rows[i];
      forall j | i < j < |front| ensures !GivesKey(front[j], Strip(front[i].id.value)) {
        assert front[j] == rows[j];
      }
      BuildMappingLastWins(front, i);
      assert !GivesKey(rows[|rows| - 1], Strip(rows[i].id.value));
    }
  }

  /** The prefix shown for an importer id without a name. */
  const IdPrefix: string := "ID: "

  /** The name shown for the stripped importer id `id`. */
  function ImporterName(mapping: map<string, Option<string>>, id: string): (name: string)
    ensures id in mapping && mapping[id].Some? ==> name == mapping[id].value
    ensures !(id in mapping && mapping[id].Some?) ==> name == IdPrefix + id
  {
    if id in mapping && mapping[id].Some? then mapping[id].value else IdPrefix + id
  }

  /** The shown name is either a name from the mapping or the prefixed id;
      with an empty mapping it is always the prefixed id, which is what the
      separate branch for an empty mapping writes. */
  lemma {:induction false} ImporterNameShape(mapping: map<string, Option<string>>, id: string)
    ensures (exists k :: k in mapping && mapping[k] == Some(ImporterName(mapping, id)))
            || ImporterName(mapping, id) == IdPrefix + id
    ensures mapping == map[] ==> ImporterName(mapping, id) == IdPrefix + id
  {
  }

  /** The row after the mapping: `importer_id_str` is the stripped id and
      `importer_name` its mapped name; nothing else changes. */
  function MappedRow(mapping: map<string, Option<string>>, row: Row): (r: Row)
    ensures r == row.(importerIdStr := Strip(row.importerId),
                      importerName := ImporterName(mapping, Strip(row.importerId)))
  {
    var id := Strip(row.importerId);
    row.(importerIdStr := id, importerName := ImporterName(mapping, id))
  }

  /** The table after `apply_importer_mapping` found an `importer_ID` column. */
  function WithImporterNames(t: Table, mapping: map<string, Option<string>>): (r: Table)
    ensures r.columns == WithColumn(WithColumn(t.columns, ImporterIdStrCol), ImporterNameCol)
    ensures |r.rows| == |t.rows|
    ensures forall i :: 0 <= i < |t.rows| ==> r.rows[i] == MappedRow(mapping, t.rows[i])
  {
    Table(WithColumn(WithColumn(t.columns, ImporterIdStrCol), ImporterNameCol),
          Map(t.rows, row => MappedRow(mapping, row)))
  }

  /** Every row gets the same importer name. */
  function WithConstantName(t: Table, name: string): (r: Table)
    ensures r.columns == WithColumn(t.columns, ImporterNameCol)
    ensures |r.rows| == |t.rows|
    ensures forall i :: 0 <= i < |t.rows| ==> r.rows[i] == t.rows[i].(importerName := name)
  {
    Table(WithColumn(t.columns, ImporterNameCol), Map(t.rows, (row: Row) => row.(importerName := name)))
  }

  /** Applying the mapping a second time changes nothing: it only reads the
      id, which it does not write. */
  lemma {:induction false} WithImporterNamesIdempotent(t: Table, mapping: map<string, Option<string>>)
    ensures WithImporterNames(WithImporterNames(t, mapping), mapping) == WithImporterNames(t, mapping)
  {
    var once := WithImporterNames(t, mapping);
    var twice := WithImporterNames(once, mapping);
    assert twice.rows == once.rows;
  }

  /** The two row passes of `apply_importer_mapping` (the stripped id, then
      the name looked up from it) give the mapped rows. */
  lemma {:induction false} MappingPasses(t: Table, mapping: map<string, Option<string>>, f: Row -> Row, g: Row -> Row)
    requires forall row :: f(row) == row.(importerIdStr := Strip(row.importerId))
    requires forall row :: g(row) == row.(importerName := ImporterName(mapping, row.importerIdStr))
    ensures Map(Map(t.rows, f), g) == WithImporterNames(t, mapping).rows
  {
    var a, b := Map(Map(t.rows, f), g), WithImporterNames(t, mapping).rows;
    forall i | 0 <= i < |a| ensures a[i] == b[i] {
      assert Map(t.rows, f)[i] == f(t.rows[i]);
    }
  }

  /** `apply_importer_mapping`: without an `importer_ID` column the caller's
      frame gets the name "Unknown" in place and is returned; otherwise a
      copy gets the stripped id and its mapped name, and the caller's frame
      is left alone. */
  method ApplyImporterMapping(df: Frame, mapping: map<string, Option<string>>) returns (r: Frame)
    modifies df
    ensures ImporterIdUpperCol !in old(df.columns) ==>
      r == df && df.Contents() == WithConstantName(old(df.Contents()), Unknown)
    ensures ImporterIdUpperCol in old(df.columns) ==>
      fresh(r) && unchanged(df) && r.Contents() == WithImporterNames(old(df.Contents()), mapping)
  {
    if ImporterIdUpperCol !in df.columns {
      var t := WithConstantName(df.Contents(), Unknown);
      df.columns, df.rows := t.columns, t.rows;
      return df;
    }
    r := df.Copy();
    var t := r.Contents();
    r.columns := WithColumn(t.columns, ImporterIdStrCol);
    var withId := (row: Row) => row.(importerIdStr := Strip(row.importerId));
    r.rows := Map(t.rows, withId);
    var withIds := r.rows;
    var withName;
    if mapping != map[] {
      withName := (row: Row) => row.(importerName := ImporterName(mapping, row.importerIdStr));
    } else {
      withName := (row: Row) => row.(importerName := IdPrefix + row.importerIdStr);
    }
    r.rows := Map(withIds, withName);
    r.columns := WithColumn(r.columns, ImporterNameCol);
    MappingPasses(t, mapping, withId, withName);
  }

  // ---------------------------------------------------------------------------
  // add_occupation_column
  // ---------------------------------------------------------------------------

  /** A missing cell, or one that is only whitespace. */
  predicate Blank(x: Option<string>)
  {
    x.None? || LeadingSpaces(x.value) == |x.value|
  }

  /** A cell is blank exactly when it is missing or strips to "". */
  lemma {:induction false} BlankIsStripEmpty(x: Option<string>)
    ensures Blank(x) <==> x.None? || Strip(x.value) == ""
  {
  }

  /** The occupation of a row: the first '|'-separated segment, stripped, or
      "Unknown" for a blank cell. */
  function Occupation(x: Option<string>): (o: string)
    ensures Blank(x) ==> o == Unknown
    ensures !Blank(x) ==> '|' !in o && Strip(o) == o
    ensures !Blank(x) ==> o == Strip(Split(x.value, '|')[0])
  {
    if Blank(x) then Unknown
    else
      var first := Split(x.value, '|')[0];
      StripIdempotent(first);
      StripSlice(first);
      Strip(first)
  }

  /** A stripped string is a slice of its input, so it inherits the absence
      of a character. */
  lemma {:induction false} StripSlice(s: string)
    ensures forall c :: c in Strip(s) ==> c in s
  {
  }

  /** The occupation of "seg|rest" is `seg` when `seg` is already stripped,
      not empty and holds no '|'. */
  lemma {:induction false} OccupationFirstSegment(seg: string, rest: string)
    requires seg != [] && Strip(seg) == seg && '|' !in seg
    ensures Occupation(Some(seg + "|" + rest)) == seg
  {
    var s := seg + "|" + rest;
    assert s[..|seg|] == seg;
    assert IndexOf(s, '|') == |seg| by {
      assert s[|seg|] == '|';
      assert s[..|seg|] == seg;
    }
    StripNonBlank(s);
  }

  /** A string whose first character is not whitespace does not strip to "". */
  lemma {:induction false} StripNonBlank(s: string)
    requires s != [] && !IsSpace(s[0])
    ensures Strip(s) != ""
  {
  }

  /** A blank first segment gives the empty occupation, not "Unknown":
      " |IT" has the occupation "". */
  lemma {:induction false} OccupationBlankSegment()
    ensures Occupation(Some(" |IT")) == ""
  {
    var s := " |IT";
    assert s[1] == '|' && s[0] != '|';
    assert IndexOf(s, '|') == 1;
    assert Split(s, '|')[0] == " ";
    assert IsSpace(s[0]) && !IsSpace(s[2]);
    StripNonBlank(s[2..]);
  }

  /** `add_occupation_column`: writes the occupation column of the caller's
      frame in place, derived from `occupational_fields`, or "Unknown" in
      every row when that column is missing. */
  method AddOccupationColumn(df: Frame)
    modifies df
    ensures df.columns == WithColumn(old(df.columns), OccupationCol)
    ensures |df.rows| == |old(df.rows)|
    ensures OccupationalFieldsCol in old(df.columns) ==> forall i :: 0 <= i < |df.rows| ==>
      df.rows[i] == old(df.rows[i]).(occupation := Occupation(old(df.rows[i]).occupationalFields))
    ensures OccupationalFieldsCol !in old(df.columns) ==> forall i :: 0 <= i < |df.rows| ==>
      df.rows[i] == old(df.rows[i]).(occupation := Unknown)
  {
    if OccupationalFieldsCol in df.columns {
      df.rows := Map(df.rows, (row: Row) => row.(occupation := Occupation(row.occupationalFields)));
    } else {
      df.rows := Map(df.rows, (row: Row) => row.(occupation := Unknown));
    }
    df.columns := WithColumn(df.columns, OccupationCol);
  }

  // ---------------------------------------------------------------------------
  // parse_upgrades
  // ---------------------------------------------------------------------------

  /** The upgrades of a row: the '|'-separated segments, each stripped, or
      the empty list for a blank cell. */
  function UpgradesList(x: Option<string>): (l: seq<string>)
    ensures Blank(x) <==> l == []
  {
    if Blank(x) then [] else StripEach(Split(x.value, '|'))
  }

  /** Every string of `parts`, stripped (`[u.strip() for u in parts]`). */
  function StripEach(parts: seq<string>): (r: seq<string>)
    ensures |r| == |parts|
  {
    if parts == [] then [] else StripEach(parts[..|parts| - 1]) + [Strip(parts[|parts| - 1])]
  }

  lemma {:induction false} StripEachAt(parts: seq<string>, i: nat)
    requires i < |parts|
    ensures StripEach(parts)[i] == Strip(parts[i])
    decreases |parts|
  {
    if i < |parts| - 1 {
      StripEachAt(parts[..|parts| - 1], i);
    }
  }

  /** Every parsed upgrade name is stripped and holds no '|'. */
  lemma {:induction false} UpgradesListNames(x: Option<string>, i: nat)
    requires i < |UpgradesList(x)|
    ensures '|' !in UpgradesList(x)[i] && Strip(UpgradesList(x)[i]) == UpgradesList(x)[i]
  {
    var parts := Split(x.value, '|');
    StripEachAt(parts, i);
    StripIdempotent(parts[i]);
    StripSlice(parts[i]);
  }

  /** Stripping names that are already stripped changes nothing. */
  lemma {:induction false} StripEachStripped(names: seq<string>)
    requires forall i :: 0 <= i < |names| ==> Strip(names[i]) == names[i]
    ensures StripEach(names) == names
  {
    forall i | 0 <= i < |names| ensures StripEach(names)[i] == names[i] {
      StripEachAt(names, i);
    }
  }

  /** Joining stripped upgrade names without '|' and parsing the result gives
      the names back; the one list that does not come back is `[""]`, whose
      join is blank. */
  lemma {:induction false} UpgradesRoundTrip(names: seq<string>)
    requires |names| >= 1 && names != [""]
    requires forall i :: 0 <= i < |names| ==> '|' !in names[i] && Strip(names[i]) == names[i]
    ensures UpgradesList(Some(Join(names, '|'))) == names
  {
    SplitJoin(names, '|');
    JoinNotBlank(names);
    StripEachStripped(names);
  }

  /** The bar-join of stripped names other than `[""]` does not start with
      whitespace, so it is not blank. */
  lemma {:induction false} JoinNotBlank(names: seq<string>)
    requires |names| >= 1 && names != [""]
    requires forall i :: 0 <= i < |names| ==> Strip(names[i]) == names[i]
    ensures LeadingSpaces(Join(names, '|')) == 0
  {
    var s := Join(names, '|');
    if names[0] != [] {
      JoinStartsWith(names, '|');
      assert s[0] == names[0][0];
      assert Strip(names[0]) == names[0];
      assert !IsSpace(names[0][0]);
    } else {
      assert |names| > 1;
      assert s == names[0] + ['|'] + Join(names[1..], '|');
      assert s[0] == '|';
    }
  }

  /** A join starts with its first part. */
  lemma {:induction false} JoinStartsWith(parts: seq<string>, sep: char)
    requires |parts| >= 1
    ensures parts[0] <= Join(parts, sep)
  {
  }

  /** The upgrade lists of `rows`, one per row. */
  function UpgradeLists(rows: seq<Row>): (ls: seq<seq<string>>)
    ensures |ls| == |rows|
    ensures forall i :: 0 <= i < |rows| ==> ls[i] == UpgradesList(rows[i].upgrades)
  {
    Map(rows, (row: Row) => UpgradesList(row.upgrades))
  }

  /** The set of all upgrade names in the cells of `rows`, blank cells
      contributing none. */
  function AllUpgradesOf(rows: seq<Row>): set<string>
  {
    UnionOf(UpgradeLists(rows))
  }

  /** An upgrade name is collected exactly when some row lists it. */
  lemma {:induction false} AllUpgradesMembers(rows: seq<Row>, u: string)
    ensures u in AllUpgradesOf(rows) <==> exists i :: 0 <= i < |rows| && u in UpgradesList(rows[i].upgrades)
  {
    UnionOfMembers(UpgradeLists(rows), u);
  }

  /** The loop collecting `all_upgrades` over the non-blank cells. The set is
      computed but never used afterwards. */
  method CollectUpgrades(rows: seq<Row>) returns (all: set<string>)
    ensures all == AllUpgradesOf(rows)
  {
    all := {};
    for i := 0 to |rows|
      invariant all == AllUpgradesOf(rows[..i])
    {
      var cell := rows[i].upgrades;
      AllUpgradesStep(rows, i);
      if !Blank(cell) {
        all := all + Elements(UpgradesList(cell));
      }
    }
    assert rows[..|rows|] == rows;
  }

  /** One more row adds the names of its cell; a blank cell adds none. */
  lemma {:induction false} AllUpgradesStep(rows: seq<Row>, i: nat)
    requires i < |rows|
    ensures AllUpgradesOf(rows[..i + 1])
      == AllUpgradesOf(rows[..i]) + (if Blank(rows[i].upgrades) then {} else Elements(UpgradesList(rows[i].upgrades)))
  {
    var cell := rows[i].upgrades;
    assert UpgradeLists(rows[..i + 1]) == UpgradeLists(rows[..i]) + [UpgradesList(cell)] by {
      assert rows[..i + 1][..i] == rows[..i];
    }
    UnionOfSnoc(UpgradeLists(rows[..i]), UpgradesList(cell));
  }

  /** `parse_upgrades`: without an `upgrades` column the frame is returned as
      it is; otherwise a copy gets the parsed `upgrades_list` column. */
  method ParseUpgrades(df: Frame) returns (r: Frame)
    ensures UpgradesCol !in df.columns ==> r == df
    ensures UpgradesCol in df.columns ==> fresh(r)
    ensures UpgradesCol in df.columns ==> r.columns == WithColumn(df.columns, UpgradesListCol)
    ensures UpgradesCol in df.columns ==> |r.rows| == |df.rows| && forall i :: 0 <= i < |df.rows| ==>
      r.rows[i] == df.rows[i].(upgradesList := UpgradesList(df.rows[i].upgrades))
  {
    if UpgradesCol !in df.columns {
      return df;
    }
    r := df.Copy();
    var allUpgrades := CollectUpgrades(r.rows);
    r.rows := Map(r.rows, (row: Row) => row.(upgradesList := UpgradesList(row.upgrades)));
    r.columns := WithColumn(r.columns, UpgradesListCol);
  }

  // ---------------------------------------------------------------------------
  // prepare_enriched_data
  // ---------------------------------------------------------------------------

  /** The renames of enriched-table columns to the names the dashboard reads. */
  const EnrichedRenames: map<string, string> := map[
    "entity_id_str" := EntityIdCol,
    "event_date_parsed" := EventDateCol,
    "title_export" := TitleCol,
    "location_region_matched" := UkRegionCol,
    "occupational_fields_export" := OccupationalFieldsCol,
    "publishing_date" := StartDateCol,
    "expiration_date" := EndDateCol]

  function RenameColumn(c: string): string
  {
    if c in EnrichedRenames then EnrichedRenames[c] else c
  }

  /** `prepare_enriched_data`: every column named in the rename table is
      renamed, the others keep their names, and the order is kept. */
  function PrepareEnrichedData(t: Table): (r: Table)
    ensures r.rows == t.rows
    ensures |r.columns| == |t.columns|
    ensures forall i :: 0 <= i < |t.columns| ==>
      r.columns[i] == (if t.columns[i] in EnrichedRenames then EnrichedRenames[t.columns[i]] else t.columns[i])
  {
    Table(Map(t.columns, RenameColumn), t.rows)
  }

  /** No renamed name is itself renamed, so preparing twice is preparing once. */
  lemma {:induction false} PrepareEnrichedIdempotent(t: Table)
    ensures PrepareEnrichedData(PrepareEnrichedData(t)) == PrepareEnrichedData(t)
  {
    assert forall v :: v in EnrichedRenames.Values ==> v !in EnrichedRenames;
    var once := PrepareEnrichedData(t);
    var twice := PrepareEnrichedData(once);
    assert twice.columns == once.columns;
  }

  /** An enriched table whose id column is `entity_id_str` has an `entity_id`
      column afterwards, at the same place. */
  lemma {:induction false} PrepareEnrichedProvidesEntityId(t: Table, i: nat)
    requires i < |t.columns| && t.columns[i] == "entity_id_str"
    ensures PrepareEnrichedData(t).columns[i] == EntityIdCol
  {
  }

  // ---------------------------------------------------------------------------
  // apply_filters_to_data
  // ---------------------------------------------------------------------------

  /** The filter selections. An absent key is an empty selection; the date
      range only counts when it has exactly two dates. */
  datatype Filters = Filters(
    dateRange: seq<int>,
    importer: seq<string>,
    company: seq<string>,
    region: seq<string>,
    occupation: seq<string>,
    upgrades: seq<string>,
    jobTitle: string)

  predicate HasDateRange(f: Filters)
  {
    |f.dateRange| == 2
  }

  /** The vacancy is active during [start, end]: it started by the end and
      ended after the start. A missing date fails the comparison. */
  predicate ActiveOk(f: Filters, columns: seq<string>, row: Row)
  {
    HasDateRange(f) && StartDateCol in columns && EndDateCol in columns ==>
      && row.startDate.Some? && row.startDate.value <= f.dateRange[1]
      && row.endDate.Some? && row.endDate.value >= f.dateRange[0]
  }

  /** The event date lies in [start, end]; only applied when the event-date
      column holds dates. */
  predicate EventDateOk(f: Filters, columns: seq<string>, eventDateIsDatetime: bool, row: Row)
  {
    HasDateRange(f) && EventDateCol in columns && eventDateIsDatetime ==>
      row.eventDate.Some? && f.dateRange[0] <= row.eventDate.value <= f.dateRange[1]
  }

  predicate ImporterOk(f: Filters, columns: seq<string>, row: Row)
  {
    |f.importer| > 0 && ImporterNameCol in columns ==> row.importerName in f.importer
  }

  predicate CompanyOk(f: Filters, columns: seq<string>, row: Row)
  {
    |f.company| > 0 && OrganizationCol in columns ==> row.organization in f.company
  }

  predicate RegionOk(f: Filters, columns: seq<string>, row: Row)
  {
    |f.region| > 0 && UkRegionCol in columns ==> row.ukRegion in f.region
  }

  predicate OccupationOk(f: Filters, columns: seq<string>, row: Row)
  {
    |f.occupation| > 0 && OccupationCol in columns ==> row.occupation in f.occupation
  }

  /** Some selected name is in the list (Python's `any(u in x for u in selected)`). */
  predicate AnyOf(selected: seq<string>, have: seq<string>)
  {
    exists i :: 0 <= i < |selected| && selected[i] in have
  }

  /** The row has at least one of the selected upgrades. */
  predicate UpgradesOk(f: Filters, columns: seq<string>, row: Row)
  {
    |f.upgrades| > 0 && UpgradesListCol in columns ==> AnyOf(f.upgrades, row.upgradesList)
  }

  /** The stripped, lower-cased search term, which is active when not empty. */
  function SearchTerm(f: Filters): string
  {
    Lower(Strip(f.jobTitle))
  }

  /** The lower-cased title contains the search term; a missing title fails. */
  predicate TitleOk(f: Filters, columns: seq<string>, row: Row)
  {
    Strip(f.jobTitle) != "" && TitleCol in columns ==>
      row.title.Some? && IsSubstring(SearchTerm(f), Lower(row.title.value))
  }

  /** A row passes the filters when it passes every active filter. */
  predicate Keep(f: Filters, columns: seq<string>, eventDateIsDatetime: bool, row: Row)
  {
    && ActiveOk(f, columns, row)
    && EventDateOk(f, columns, eventDateIsDatetime, row)
    && ImporterOk(f, columns, row)
    && CompanyOk(f, columns, row)
    && RegionOk(f, columns, row)
    && OccupationOk(f, columns, row)
    && UpgradesOk(f, columns, row)
    && TitleOk(f, columns, row)
  }

  /** Stage `k` of the filter cascade, in the order the filters run. */
  predicate StageOk(f: Filters, columns: seq<string>, eventDateIsDatetime: bool, k: nat, row: Row)
  {
    if k == 0 then ActiveOk(f, columns, row)
    else if k == 1 then EventDateOk(f, columns, eventDateIsDatetime, row)
    else if k == 2 then ImporterOk(f, columns, row)
    else if k == 3 then CompanyOk(f, columns, row)
    else if k == 4 then RegionOk(f, columns, row)
    else if k == 5 then OccupationOk(f, columns, row)
    else if k == 6 then UpgradesOk(f, columns, row)
    else if k == 7 then TitleOk(f, columns, row)
    else true
  }

  /** The row passes the first `k` stages. */
  predicate KeepUpTo(f: Filters, columns: seq<string>, eventDateIsDatetime: bool, k: nat, row: Row)
  {
    k == 0 || (KeepUpTo(f, columns, eventDateIsDatetime, k - 1, row)
               && StageOk(f, columns, eventDateIsDatetime, k - 1, row))
  }

  /** Passing all eight stages is passing every filter. */
  lemma {:induction false} KeepUpToAll(f: Filters, columns: seq<string>, eventDateIsDatetime: bool, row: Row)
    ensures KeepUpTo(f, columns, eventDateIsDatetime, 8, row) == Keep(f, columns, eventDateIsDatetime, row)
  {
    var dt := eventDateIsDatetime;
    assert KeepUpTo(f, columns, dt, 1, row) == ActiveOk(f, columns, row);
    assert KeepUpTo(f, columns, dt, 2, row) == (KeepUpTo(f, columns, dt, 1, row) && EventDateOk(f, columns, dt, row));
    assert KeepUpTo(f, columns, dt, 3, row) == (KeepUpTo(f, columns, dt, 2, row) && ImporterOk(f, columns, row));
    assert KeepUpTo(f, columns, dt, 4, row) == (KeepUpTo(f, columns, dt, 3, row) && CompanyOk(f, columns, row));
    assert KeepUpTo(f, columns, dt, 5, row) == (KeepUpTo(f, columns, dt, 4, row) && RegionOk(f, columns, row));
    assert KeepUpTo(f, columns, dt, 6, row) == (KeepUpTo(f, columns, dt, 5, row) && OccupationOk(f, columns, row));
    assert KeepUpTo(f, columns, dt, 7, row) == (KeepUpTo(f, columns, dt, 6, row) && UpgradesOk(f, columns, row));
    assert KeepUpTo(f, columns, dt, 8, row) == (KeepUpTo(f, columns, dt, 7, row) && TitleOk(f, columns, row));
  }

  /** A row is kept exactly when it is in the input and passes every filter. */
  lemma {:induction false} KeptMembers(rows: seq<Row>, f: Filters, columns: seq<string>, dt: bool, row: Row)
    ensures row in Kept(rows, f, columns, dt) <==> row in rows && Keep(f, columns, dt, row)
  {
    KeptIsFilter(rows, f, columns, dt, (r: Row) => Keep(f, columns, dt, r));
  }

  /** The rows of `rows` that pass the first `k` stages, in order. */
  function KeptUpTo(rows: seq<Row>, f: Filters, columns: seq<string>, eventDateIsDatetime: bool, k: nat): seq<Row>
  {
    if rows == [] then []
    else
      var last := rows[|rows| - 1];
      KeptUpTo(rows[..|rows| - 1], f, columns, eventDateIsDatetime, k)
        + (if KeepUpTo(f, columns, eventDateIsDatetime, k, last) then [last] else [])
  }

  /** The rows of `rows` that pass every filter, in order. */
  function Kept(rows: seq<Row>, f: Filters, columns: seq<string>, eventDateIsDatetime: bool): seq<Row>
  {
    if rows == [] then []
    else
      var last := rows[|rows| - 1];
      Kept(rows[..|rows| - 1], f, columns, eventDateIsDatetime)
        + (if Keep(f, columns, eventDateIsDatetime, last) then [last] else [])
  }

  /** Running stage `k` on the rows that passed the stages before it keeps
      the rows that pass the first `k + 1` stages. */
  lemma {:induction false} StageFilter(rows: seq<Row>, f: Filters, columns: seq<string>, dt: bool, k: nat, step: Row -> bool)
    requires forall row :: step(row) == StageOk(f, columns, dt, k, row)
    ensures Filter(KeptUpTo(rows, f, columns, dt, k), step) == KeptUpTo(rows, f, columns, dt, k + 1)
    decreases |rows|
  {
    if rows != [] {
      var front, last := rows[..|rows| - 1], rows[|rows| - 1];
      StageFilter(front, f, columns, dt, k, step);
      var before := KeptUpTo(front, f, columns, dt, k);
      if KeepUpTo(f, columns, dt, k, last) {
        FilterSnoc(before, last, step);
      } else {
        assert KeptUpTo(rows, f, columns, dt, k) == before;
      }
    }
  }

  /** A stage that every row passes keeps the same rows. */
  lemma {:induction false} StageSkip(rows: seq<Row>, f: Filters, columns: seq<string>, dt: bool, k: nat)
    requires forall row :: StageOk(f, columns, dt, k, row)
    ensures KeptUpTo(rows, f, columns, dt, k) == KeptUpTo(rows, f, columns, dt, k + 1)
    decreases |rows|
  {
    if rows != [] {
      StageSkip(rows[..|rows| - 1], f, columns, dt, k);
    }
  }

  /** No stage has run yet: every row is kept. */
  lemma {:induction false} KeptUpToNone(rows: seq<Row>, f: Filters, columns: seq<string>, dt: bool)
    ensures KeptUpTo(rows, f, columns, dt, 0) == rows
    decreases |rows|
  {
    if rows != [] {
      KeptUpToNone(rows[..|rows| - 1], f, columns, dt);
    }
  }

  /** After all eight stages the rows kept are those passing every filter. */
  lemma {:induction false} KeptUpToAll(rows: seq<Row>, f: Filters, columns: seq<string>, dt: bool)
    ensures KeptUpTo(rows, f, columns, dt, 8) == Kept(rows, f, columns, dt)
    decreases |rows|
  {
    if rows != [] {
      KeptUpToAll(rows[..|rows| - 1], f, columns, dt);
      KeepUpToAll(f, columns, dt, rows[|rows| - 1]);
    }
  }

  /** `Kept` is the generic order-preserving filter with the `Keep` mask. */
  lemma {:induction false} KeptIsFilter(rows: seq<Row>, f: Filters, columns: seq<string>, dt: bool, p: Row -> bool)
    requires forall row :: p(row) == Keep(f, columns, dt, row)
    ensures Kept(rows, f, columns, dt) == Filter(rows, p)
    decreases |rows|
  {
    if rows != [] {
      KeptIsFilter(rows[..|rows| - 1], f, columns, dt, p);
    }
  }

  /** Whether stage `k` of the cascade runs: its selection is present and
      non-empty and the column it reads exists. */
  predicate StageActive(f: Filters, columns: seq<string>, dt: bool, k: nat)
  {
    if k == 0 then HasDateRange(f) && StartDateCol in columns && EndDateCol in columns
    else if k == 1 then HasDateRange(f) && EventDateCol in columns && dt
    else if k == 2 then |f.importer| > 0 && ImporterNameCol in columns
    else if k == 3 then |f.company| > 0 && OrganizationCol in columns
    else if k == 4 then |f.region| > 0 && UkRegionCol in columns
    else if k == 5 then |f.occupation| > 0 && OccupationCol in columns
    else if k == 6 then |f.upgrades| > 0 && UpgradesListCol in columns
    else if k == 7 then Strip(f.jobTitle) != "" && TitleCol in columns
    else false
  }

  /** The mask stage `k` applies when it runs. */
  predicate StageMask(f: Filters, k: nat, row: Row)
  {
    if k == 0 then
      HasDateRange(f) && row.startDate.Some? && row.startDate.value <= f.dateRange[1]
      && row.endDate.Some? && row.endDate.value >= f.dateRange[0]
    else if k == 1 then
      HasDateRange(f) && row.eventDate.Some? && f.dateRange[0] <= row.eventDate.value <= f.dateRange[1]
    else if k == 2 then row.importerName in f.importer
    else if k == 3 then row.organization in f.company
    else if k == 4 then row.ukRegion in f.region
    else if k == 5 then row.occupation in f.occupation
    else if k == 6 then AnyOf(f.upgrades, row.upgradesList)
    else if k == 7 then row.title.Some? && IsSubstring(SearchTerm(f), Lower(row.title.value))
    else true
  }

  /** A stage passes a row when it does not run or its mask keeps the row. */
  lemma {:induction false} StageOkMask(f: Filters, columns: seq<string>, dt: bool, k: nat, row: Row)
    requires k < 8
    ensures StageOk(f, columns, dt, k, row) == (StageActive(f, columns, dt, k) ==> StageMask(f, k, row))
  {
  }

  /** One mask assignment of the cascade: when stage `k` runs, the rows kept
      so far are filtered by its mask, otherwise they are left alone. */
  method RunStage(all: seq<Row>, rows: seq<Row>, f: Filters, columns: seq<string>, dt: bool, k: nat)
    returns (kept: seq<Row>)
    requires k < 8
    requires rows == KeptUpTo(all, f, columns, dt, k)
    ensures kept == KeptUpTo(all, f, columns, dt, k + 1)
  {
    var mask := (row: Row) => StageMask(f, k, row);
    forall row ensures StageOk(f, columns, dt, k, row) == (StageActive(f, columns, dt, k) ==> mask(row)) {
      StageOkMask(f, columns, dt, k, row);
    }
    if StageActive(f, columns, dt, k) {
      StageFilter(all, f, columns, dt, k, mask);
      kept := Filter(rows, mask);
    } else {
      StageSkip(all, f, columns, dt, k);
      kept := rows;
    }
  }

  /** `apply_filters_to_data`: without filters every row is kept; otherwise
      the stages run in the source's order (vacancy dates, event date,
      importer, company, region, occupation, upgrades, title), and the rows
      passing every active filter are kept, in order, with the columns
      unchanged. */
  method ApplyFiltersToData(t: Table, filters: Option<Filters>, eventDateIsDatetime: bool) returns (r: Table)
    ensures r.columns == t.columns
    ensures filters.None? ==> r.rows == t.rows
    ensures filters.Some? ==> r.rows == Kept(t.rows, filters.value, t.columns, eventDateIsDatetime)
  {
    if filters.None? {
      return t;
    }
    var f, cols, dt := filters.value, t.columns, eventDateIsDatetime;
    var all := t.rows;
    KeptUpToNone(all, f, cols, dt);
    var rows := RunStage(all, all, f, cols, dt, 0);
    rows := RunStage(all, rows, f, cols, dt, 1);
    rows := RunStage(all, rows, f, cols, dt, 2);
    rows := RunStage(all, rows, f, cols, dt, 3);
    rows := RunStage(all, rows, f, cols, dt, 4);
    rows := RunStage(all, rows, f, cols, dt, 5);
    rows := RunStage(all, rows, f, cols, dt, 6);
    rows := RunStage(all, rows, f, cols, dt, 7);
    KeptUpToAll(all, f, cols, dt);
    r := Table(cols, rows);
  }

  /** With no active filter every row is kept. */
  lemma {:induction false} NoActiveFilterKeepsAll(f: Filters, t: Table, eventDateIsDatetime: bool)
    requires !HasDateRange(f)
    requires f.importer == [] && f.company == [] && f.region == [] && f.occupation == [] && f.upgrades == []
    requires Strip(f.jobTitle) == ""
    ensures Kept(t.rows, f, t.columns, eventDateIsDatetime) == t.rows
  {
    KeptAll(t.rows, f, t.columns, eventDateIsDatetime);
  }

  lemma {:induction false} KeptAll(rows: seq<Row>, f: Filters, columns: seq<string>, dt: bool)
    requires forall row :: row in rows ==> Keep(f, columns, dt, row)
    ensures Kept(rows, f, columns, dt) == rows
    decreases |rows|
  {
    if rows != [] {
      KeptAll(rows[..|rows| - 1], f, columns, dt);
    }
  }

  /** With a date range and both vacancy-date columns present, a row with a
      missing start or end date is dropped. */
  lemma {:induction false} MissingVacancyDatesDropped(f: Filters, columns: seq<string>, eventDateIsDatetime: bool, row: Row)
    requires HasDateRange(f) && StartDateCol in columns && EndDateCol in columns
    requires row.startDate.None? || row.endDate.None?
    ensures !Keep(f, columns, eventDateIsDatetime, row)
  {
  }

  /** The title filter ignores the case of the search term. */
  lemma {:induction false} TitleFilterIgnoresCase(f: Filters, columns: seq<string>, row: Row)
    ensures TitleOk(f.(jobTitle := Upper(f.jobTitle)), columns, row) == TitleOk(f, columns, row)
  {
    StripUpper(f.jobTitle);
    LowerUpper(Strip(f.jobTitle));
  }

  /** Upper-casing commutes with stripping: it maps whitespace to itself and
      nothing else to whitespace. */
  lemma {:induction false} StripUpper(s: string)
    ensures Strip(Upper(s)) == Upper(Strip(s))
  {
    var u := Upper(s);
    var a := LeadingSpaces(s);
    LeadingSpacesSame(s, u);
    assert LeadingSpaces(u) == a;
    var t, v := s[a..], u[a..];
    UpperSlice(s, a, |s|);
    assert t == s[a..|s|] && v == u[a..|u|];
    assert v == Upper(t);
    TrailingSpacesSame(t, v);
    var n := TrailingSpaces(t);
    assert TrailingSpaces(v) == n;
    StripAt(s, a, n);
    StripAt(u, a, n);
    UpperSlice(s, a, |s| - n);
  }

  lemma {:induction false} LeadingSpacesSame(s: string, u: string)
    requires u == Upper(s)
    ensures LeadingSpaces(u) == LeadingSpaces(s)
    decreases |s|
  {
    if s != [] {
      SpaceUpper(s[0]);
      if IsSpace(s[0]) {
        UpperSlice(s, 1, |s|);
        LeadingSpacesSame(s[1..], u[1..]);
      }
    }
  }

  lemma {:induction false} TrailingSpacesSame(s: string, u: string)
    requires u == Upper(s)
    ensures TrailingSpaces(u) == TrailingSpaces(s)
    decreases |s|
  {
    if s != [] {
      var n := |s| - 1;
      SpaceUpper(s[n]);
      if IsSpace(s[n]) {
        UpperSlice(s, 0, n);
        assert s[0..n] == s[..n] && u[0..n] == u[..n];
        TrailingSpacesSame(s[..n], u[..n]);
      }
    }
  }

  /** Upper-casing never turns whitespace into anything else, nor the reverse. */
  lemma {:induction false} SpaceUpper(c: char)
    ensures IsSpace(UpperChar(c)) == IsSpace(c)
  {
  }

  lemma {:induction false} LowerUpper(s: string)
    ensures Lower(Upper(s)) == Lower(s)
  {
  }
}
