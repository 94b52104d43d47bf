/** The Google-Sheets variant of the dashboard: its importer dictionary
    (keys as read), the importer-name column it writes into the event frame,
    the sidebar filter cascade and the default columns of the data table.
    In this variant the event date is the parsed `event_data` cell, held in
    `Row.eventDate`. */
module SheetsApp {

  import opened Seqs
  import opened Text
  import opened Frames
  import AppPrep

  // ---------------------------------------------------------------------------
  // The importer dictionary built in load_data
  // ---------------------------------------------------------------------------

  /** A mapping-sheet row whose id does not strip to "". */
  predicate IdPresent(row: (string, string))
  {
    LeadingSpaces(row.0) < |row.0|
  }

  /** The dictionary of the mapping sheet: empty unless both the
      `importer_id` and `importer_name` columns exist; otherwise the rows
      with a blank id are dropped and each id, as read, maps to its name. */
  function SheetMapping(hasColumns: bool, rows: seq<(string, string)>): (m: map<string, string>)
    ensures !hasColumns ==> m == map[]
    ensures forall k :: k in m ==> Strip(k) != ""
  {
    if !hasColumns then map[]
    else
      var kept := Filter(rows, IdPresent);
      forall k | k in DictFromPairs(kept) ensures Strip(k) != "" {
        DictFromPairsValue(kept, k);
        AppPrep.BlankIsStripEmpty(Some(k));
      }
      DictFromPairs(kept)
  }

  /** An id is a key exactly when some row has it and it is not blank. */
  lemma {:induction false} SheetMappingKeys(rows: seq<(string, string)>, k: string)
    ensures k in SheetMapping(true, rows) <==> Strip(k) != "" && exists i :: 0 <= i < |rows| && rows[i].0 == k
  {
    AppPrep.BlankIsStripEmpty(Some(k));
    var kept := Filter(rows, IdPresent);
    DictFromPairsKeys(kept, k);
    if Binds(kept, k) {
      var i :| 0 <= i < |kept| && kept[i].0 == k;
      assert kept[i] in rows;
    }
    if Strip(k) != "" && exists i :: 0 <= i < |rows| && rows[i].0 == k {
      var i :| 0 <= i < |rows| && rows[i].0 == k;
      assert rows[i] in kept;
    }
  }

  /** A later row with the same id overwrites an earlier one: the name of an
      id is the one on its last row. */
  lemma {:induction false} SheetMappingLastWins(rows: seq<(string, string)>, i: nat)
    requires i < |rows| && IdPresent(rows[i])
    requires forall j :: i < j < |rows| ==> rows[j].0 != rows[i].0
    ensures rows[i].0 in SheetMapping(true, rows) && SheetMapping(true, rows)[rows[i].0] == rows[i].1
    decreases |rows|
  {
    var front, last := rows[..|rows| - 1], rows[|rows| - 1];
    var kept := Filter(front, IdPresent);
    assert rows == front + [last];
    FilterSnoc(front, last, IdPresent);
    if i == |rows| - 1 {
      assert Filter(rows, IdPresent) == kept + [last];
      DictSnoc(kept, last);
    } else {
      assert forall j :: i < j < |front| ==> front[j] == rows[j];
      SheetMappingLastWins(front, i);
      if IdPresent(last) {
        assert Filter(rows, IdPresent) == kept + [last];
        DictSnoc(kept, last);
      } else {
        assert Filter(rows, IdPresent) == kept;
      }
    }
  }

  lemma {:induction false} DictSnoc(e: seq<(string, string)>, x: (string, string))
    ensures DictFromPairs(e + [x]) == DictFromPairs(e)[x.0 := x.1]
  {
    assert (e + [x])[..|e|] == e;
  }

  // ---------------------------------------------------------------------------
  // apply_importer_mapping
  // ---------------------------------------------------------------------------

  /** The name a row gets: with a non-empty dictionary and an `importer_id`
      column, the id's name, or the id itself when unmapped; with an empty
      dictionary, the id; without the column, "Unknown". */
  function SheetImporterName(mapping: map<string, string>, columns: seq<string>, row: Row): string
  {
    if ImporterIdCol !in columns then Unknown
    else if mapping != map[] && row.importerId in mapping then mapping[row.importerId]
    else row.importerId
  }

  /** `apply_importer_mapping`, in place: the `importer_name` column is
      written into the caller's frame and nothing else changes. */
  method ApplyImporterMapping(df: Frame, mapping: map<string, string>) returns (r: Frame)
    modifies df
    ensures r == df
    ensures df.columns == WithColumn(old(df.columns), ImporterNameCol)
    ensures |df.rows| == |old(df.rows)|
    ensures forall i :: 0 <= i < |df.rows| ==>
      df.rows[i] == old(df.rows[i]).(importerName := SheetImporterName(mapping, old(df.columns), old(df.rows[i])))
  {
    var columns := df.columns;
    if mapping != map[] && ImporterIdCol in columns {
      df.rows := Map(df.rows, (row: Row) => row.(importerName := if row.importerId in mapping then mapping[row.importerId] else row.importerId));
    } else if ImporterIdCol in columns {
      df.rows := Map(df.rows, (row: Row) => row.(importerName := row.importerId));
    } else {
      df.rows := Map(df.rows, (row: Row) => row.(importerName := Unknown));
    }
    df.columns := WithColumn(columns, ImporterNameCol);
    r := df;
  }

  /** An importer listed on the sheet is shown with the name on its last
      row; an importer missing from a non-empty sheet is shown as its raw id. */
  lemma {:induction false} SheetNameFromSheet(rows: seq<(string, string)>, columns: seq<string>, row: Row, i: nat)
    requires ImporterIdCol in columns
    requires i < |rows| && rows[i].0 == row.importerId && IdPresent(rows[i])
    requires forall j :: i < j < |rows| ==> rows[j].0 != rows[i].0
    ensures SheetImporterName(SheetMapping(true, rows), columns, row) == rows[i].1
  {
    SheetMappingLastWins(rows, i);
  }

  /** An id missing from the dictionary is shown as itself, without the
      "ID: " prefix the current dashboard adds. */
  lemma {:induction false} UnmappedShowsRawId(mapping: map<string, string>, columns: seq<string>, row: Row)
    requires ImporterIdCol in columns && row.importerId !in mapping
    ensures SheetImporterName(mapping, columns, row) == row.importerId
    ensures AppPrep.ImporterName(map k | k in mapping :: Some(mapping[k]), row.importerId) == AppPrep.IdPrefix + row.importerId
  {
  }

  // ---------------------------------------------------------------------------
  // The sidebar filter cascade in main
  // ---------------------------------------------------------------------------

  /** What the sidebar holds: the date range and the multiselect choices. */
  datatype Selections = Selections(
    dateRange: seq<int>,
    occupations: seq<string>,
    regions: seq<string>,
    organizations: seq<string>,
    importers: seq<string>,
    events: seq<string>)

  /** The columns the multiselect filters read, in the order they run. */
  datatype Field = Occupation | Region | Organization | Importer | EventName

  const FilterFields: seq<Field> := [Occupation, Region, Organization, Importer, EventName]

  function FieldColumn(field: Field): string
  {
    match field
    case Occupation => OccupationCol
    case Region => RegionsCol
    case Organization => OrganizationCol
    case Importer => ImporterNameCol
    case EventName => EventNameCol
  }

  /** The cell a filter reads; a missing `regions` cell is `None`. */
  function FieldValue(field: Field, row: Row): Option<string>
  {
    match field
    case Occupation => Some(row.occupation)
    case Region => row.regions
    case Organization => Some(row.organization)
    case Importer => Some(row.importerName)
    case EventName => Some(row.eventName)
  }

  function Selected(s: Selections, field: Field): seq<string>
  {
    match field
    case Occupation => s.occupations
    case Region => s.regions
    case Organization => s.organizations
    case Importer => s.importers
    case EventName => s.events
  }

  /** The event date lies in a two-date range, when `event_data` holds dates. */
  predicate DateOk(s: Selections, columns: seq<string>, dt: bool, row: Row)
  {
    |s.dateRange| == 2 && EventDataCol in columns && dt ==>
      row.eventDate.Some? && s.dateRange[0] <= row.eventDate.value <= s.dateRange[1]
  }

  /** The row's cell is selected, when the selection is non-empty and the
      column exists (`isin`: a missing cell is never selected). */
  predicate FieldOk(s: Selections, columns: seq<string>, field: Field, row: Row)
  {
    |Selected(s, field)| > 0 && FieldColumn(field) in columns ==>
      FieldValue(field, row).Some? && FieldValue(field, row).value in Selected(s, field)
  }

  /** A row passes every sidebar filter. */
  predicate SheetKeep(s: Selections, columns: seq<string>, dt: bool, row: Row)
  {
    && DateOk(s, columns, dt, row)
    && FieldOk(s, columns, Occupation, row)
    && FieldOk(s, columns, Region, row)
    && FieldOk(s, columns, Organization, row)
    && FieldOk(s, columns, Importer, row)
    && FieldOk(s, columns, EventName, row)
  }

  /** The row passes the date filter and the first `k` multiselect filters. */
  predicate Passes(s: Selections, columns: seq<string>, dt: bool, k: nat, row: Row)
  {
    DateOk(s, columns, dt, row)
    && forall j :: 0 <= j < k && j < |FilterFields| ==> FieldOk(s, columns, FilterFields[j], row)
  }

  /** The rows passing the date filter and the first `k` multiselect
      filters, in order. */
  function Passed(rows: seq<Row>, s: Selections, columns: seq<string>, dt: bool, k: nat): seq<Row>
  {
    if rows == [] then []
    else
      var last := rows[|rows| - 1];
      Passed(rows[..|rows| - 1], s, columns, dt, k) + (if Passes(s, columns, dt, k, last) then [last] else [])
  }

  /** After all five multiselect filters, a row has passed every filter. */
  lemma {:induction false} PassesAll(s: Selections, columns: seq<string>, dt: bool, row: Row)
    ensures Passes(s, columns, dt, |FilterFields|, row) == SheetKeep(s, columns, dt, row)
  {
    assert FilterFields[0] == Occupation && FilterFields[1] == Region && FilterFields[2] == Organization;
    assert FilterFields[3] == Importer && FilterFields[4] == EventName;
  }

  /** Passing one more filter. */
  lemma {:induction false} PassesStep(s: Selections, columns: seq<string>, dt: bool, k: nat, row: Row)
    requires k < |FilterFields|
    ensures Passes(s, columns, dt, k + 1, row) == (Passes(s, columns, dt, k, row) && FieldOk(s, columns, FilterFields[k], row))
  {
  }

  /** The rows passing the first `k` filters are those of the generic filter
      with that mask. */
  lemma {:induction false} PassedIsFilter(rows: seq<Row>, s: Selections, columns: seq<string>, dt: bool, k: nat, p: Row -> bool)
    requires forall row :: p(row) == Passes(s, columns, dt, k, row)
    ensures Passed(rows, s, columns, dt, k) == Filter(rows, p)
    decreases |rows|
  {
    if rows != [] {
      PassedIsFilter(rows[..|rows| - 1], s, columns, dt, k, p);
    }
  }

  /** Running multiselect filter `k` on the rows that passed the filters
      before it keeps the rows passing the first `k + 1` filters. */
  lemma {:induction false} FieldStage(rows: seq<Row>, s: Selections, columns: seq<string>, dt: bool, k: nat, mask: Row -> bool)
    requires k < |FilterFields|
    requires forall row :: mask(row) == FieldOk(s, columns, FilterFields[k], row)
    ensures Filter(Passed(rows, s, columns, dt, k), mask) == Passed(rows, s, columns, dt, k + 1)
    decreases |rows|
  {
    if rows != [] {
      var front, last := rows[..|rows| - 1], rows[|rows| - 1];
      FieldStage(front, s, columns, dt, k, mask);
      var before := Passed(front, s, columns, dt, k);
      PassesStep(s, columns, dt, k, last);
      if Passes(s, columns, dt, k, last) {
        FilterSnoc(before, last, mask);
        assert Passed(rows, s, columns, dt, k) == before + [last];
      } else {
        assert Passed(rows, s, columns, dt, k) == before;
      }
    }
  }

  /** A multiselect filter that does not run keeps the same rows. */
  lemma {:induction false} FieldSkip(rows: seq<Row>, s: Selections, columns: seq<string>, dt: bool, k: nat)
    requires k < |FilterFields|
    requires |Selected(s, FilterFields[k])| == 0 || FieldColumn(FilterFields[k]) !in columns
    ensures Passed(rows, s, columns, dt, k) == Passed(rows, s, columns, dt, k + 1)
    decreases |rows|
  {
    if rows != [] {
      FieldSkip(rows[..|rows| - 1], s, columns, dt, k);
      var last := rows[|rows| - 1];
      assert FieldOk(s, columns, FilterFields[k], last);
      PassesStep(s, columns, dt, k, last);
    }
  }

  /** The sidebar cascade of `main`: the date filter, then the occupation,
      region, organisation, importer and event-name multiselects, each
      narrowing the frame when its selection is non-empty and its column
      exists. */
  method SidebarFilters(t: Table, s: Selections, dt: bool) returns (r: Table)
    ensures r.columns == t.columns
    ensures r.rows == Passed(t.rows, s, t.columns, dt, |FilterFields|)
  {
    var columns, all := t.columns, t.rows;
    var rows := DateFilter(t, s, dt);
    for k := 0 to |FilterFields|
      invariant rows == Passed(all, s, columns, dt, k)
    {
      var field := FilterFields[k];
      var selected := Selected(s, field);
      if |selected| > 0 && FieldColumn(field) in columns {
        var isin := (row: Row) => FieldValue(field, row).Some? && FieldValue(field, row).value in selected;
        FieldStage(all, s, columns, dt, k, isin);
        rows := Filter(rows, isin);
      } else {
        FieldSkip(all, s, columns, dt, k);
      }
    }
    r := Table(columns, rows);
  }

  /** The first step of the cascade: the event-date range, applied when
      `event_data` holds dates and two dates were chosen. */
  method DateFilter(t: Table, s: Selections, dt: bool) returns (rows: seq<Row>)
    ensures rows == Passed(t.rows, s, t.columns, dt, 0)
  {
    rows := t.rows;
    if EventDataCol in t.columns && dt && |s.dateRange| == 2 {
      var start, end := s.dateRange[0], s.dateRange[1];
      var inRange := (row: Row) => row.eventDate.Some? && start <= row.eventDate.value <= end;
      PassedIsFilter(t.rows, s, t.columns, dt, 0, inRange);
      rows := Filter(rows, inRange);
    } else {
      var any := (row: Row) => true;
      PassedIsFilter(t.rows, s, t.columns, dt, 0, any);
      FilterKeepsAll(t.rows, any);
    }
  }

  /** A row survives the cascade exactly when it is in the frame and passes
      every filter. */
  lemma {:induction false} SidebarFiltersMembers(t: Table, s: Selections, dt: bool, row: Row)
    ensures row in Passed(t.rows, s, t.columns, dt, |FilterFields|) <==> row in t.rows && SheetKeep(s, t.columns, dt, row)
  {
    var p := (x: Row) => Passes(s, t.columns, dt, |FilterFields|, x);
    PassedIsFilter(t.rows, s, t.columns, dt, |FilterFields|, p);
    PassesAll(s, t.columns, dt, row);
  }

  /** The cascade keeps the surviving rows in their original order. */
  lemma {:induction false} SidebarFiltersInOrder(t: Table, s: Selections, dt: bool)
    ensures Subsequence(Passed(t.rows, s, t.columns, dt, |FilterFields|), t.rows)
  {
    var p := (x: Row) => Passes(s, t.columns, dt, |FilterFields|, x);
    PassedIsFilter(t.rows, s, t.columns, dt, |FilterFields|, p);
    FilterSubsequence(t.rows, p);
  }

  /** With no date range and empty selections every row is kept. */
  lemma {:induction false} NoSelectionKeepsAll(rows: seq<Row>, s: Selections, columns: seq<string>, dt: bool)
    requires |s.dateRange| != 2
    requires s.occupations == [] && s.regions == [] && s.organizations == [] && s.importers == [] && s.events == []
    ensures Passed(rows, s, columns, dt, |FilterFields|) == rows
    decreases |rows|
  {
    if rows != [] {
      NoSelectionKeepsAll(rows[..|rows| - 1], s, columns, dt);
      PassesAll(s, columns, dt, rows[|rows| - 1]);
    }
  }

  // ---------------------------------------------------------------------------
  // The data table's columns
  // ---------------------------------------------------------------------------

  const DefaultColumnList: seq<string> :=
    [EventDataCol, EventNameCol, OrganizationCol, OccupationCol, RegionsCol, ImporterNameCol]

  function InFrame(all: seq<string>): string -> bool
  {
    (c: string) => c in all
  }

  /** The default selection of the column picker: the fixed list restricted
      to the columns the frame has, in the list's order, so every default is
      one of the picker's options. */
  function DefaultColumns(all: seq<string>): (r: seq<string>)
    ensures forall c :: c in r <==> c in DefaultColumnList && c in all
    ensures Subsequence(r, DefaultColumnList)
  {
    FilterSubsequence(DefaultColumnList, InFrame(all));
    Filter(DefaultColumnList, InFrame(all))
  }

  /** The columns shown: the selection when it is non-empty, else all. */
  function DisplayColumns(selected: seq<string>, all: seq<string>): (r: seq<string>)
    ensures selected != [] ==> r == selected
    ensures selected == [] ==> r == all
  {
    if selected != [] then selected else all
  }

  /** Left at its default, the picker shows the default columns; cleared,
      it shows every column. */
  lemma {:induction false} DefaultDisplay(all: seq<string>)
    ensures DefaultColumns(all) != [] ==> DisplayColumns(DefaultColumns(all), all) == DefaultColumns(all)
    ensures forall c :: c in DisplayColumns(DefaultColumns(all), all) ==> c in all
    ensures DisplayColumns([], all) == all
  {
  }
}
