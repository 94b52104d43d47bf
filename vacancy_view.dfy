/** The vacancy-level report: one record per vacancy, with its details taken
    from the vacancy's first row and its click and apply-start counts, sorted
    by clicks, most first; and the region / organisation filter over it. The
    standalone page and the page inside the older dashboard build the same
    records except for the fallbacks of the organisation and region cells. */
module VacancyView {

  import opened Seqs
  import opened Frames
  import opened RegionParser
  import opened Metrics

  /** Which page builds the report: the standalone vacancy page, or the
      vacancy page of the older dashboard, which reads the region from the
      `uk_region` column it added earlier. */
  datatype Page = Standalone | Embedded

  /** A date cell of the report: "N/A" when the table has no such column,
      else the (possibly missing) date. */
  datatype DateCell = NotAvailable | Date(day: Option<int>)

  /** One row of the report. */
  datatype VacancyRecord = VacancyRecord(
    title: Option<string>,
    organisation: string,
    jobId: string,
    startDate: DateCell,
    endDate: DateCell,
    region: string,
    clicks: nat,
    applies: nat,
    ratio: real)

  // ---------------------------------------------------------------------------
  // The first row of each vacancy
  // ---------------------------------------------------------------------------

  /** Some row carries vacancy id `id`. */
  predicate HasVacancy(rows: seq<Row>, id: string)
  {
    exists k :: 0 <= k < |rows| && rows[k].entityId == id
  }

  /** `df[df[job_id_col] == job_id].iloc[0]`: the index of the first row of
      vacancy `id`. */
  function FirstRowIndex(rows: seq<Row>, id: string): (i: nat)
    requires HasVacancy(rows, id)
    ensures i < |rows| && rows[i].entityId == id
    ensures forall j :: 0 <= j < i ==> rows[j].entityId != id
  {
    if rows[0].entityId == id then 0
    else
      var k :| 0 <= k < |rows| && rows[k].entityId == id;
      assert rows[1..][k - 1].entityId == id;
      1 + FirstRowIndex(rows[1..], id)
  }

  /** `df.drop_duplicates(subset=[job_col])`: the first row of each vacancy,
      in order of first appearance. */
  function DropDuplicates(rows: seq<Row>): seq<Row>
  {
    if rows == [] then []
    else
      var front := rows[..|rows| - 1];
      if rows[|rows| - 1].entityId in EntityIds(front) then DropDuplicates(front)
      else DropDuplicates(front) + [rows[|rows| - 1]]
  }

  /** The first row of a vacancy that already occurs in `front` is not moved
      by appending a row. */
  lemma {:induction false} FirstRowIndexSnoc(front: seq<Row>, last: Row, id: string)
    requires HasVacancy(front, id)
    ensures HasVacancy(front + [last], id)
    ensures FirstRowIndex(front + [last], id) == FirstRowIndex(front, id)
  {
    var rows := front + [last];
    var i := FirstRowIndex(front, id);
    assert rows[i] == front[i];
  }

  /** The kept rows are the first rows of the vacancies, in the order of
      `unique()`. */
  lemma {:induction false} DropDuplicatesFirst(rows: seq<Row>)
    ensures |DropDuplicates(rows)| == |Vacancies(rows)|
    ensures forall i :: 0 <= i < |DropDuplicates(rows)| ==>
      HasVacancy(rows, Vacancies(rows)[i])
      && DropDuplicates(rows)[i] == rows[FirstRowIndex(rows, Vacancies(rows)[i])]
    decreases |rows|
  {
    if rows != [] {
      var front, last := rows[..|rows| - 1], rows[|rows| - 1];
      DropDuplicatesFirst(front);
      assert rows == front + [last];
      DropDuplicatesSnoc(front, last);
      var dd, vs := DropDuplicates(front), Vacancies(front);
      forall i | 0 <= i < |dd|
        ensures HasVacancy(rows, vs[i]) && dd[i] == rows[FirstRowIndex(rows, vs[i])]
      {
        FirstRowIndexSnoc(front, last, vs[i]);
      }
      if last.entityId !in EntityIds(front) {
        FirstRowIndexNew(front, last);
        var n := |dd|;
        forall i | 0 <= i < |DropDuplicates(rows)|
          ensures HasVacancy(rows, Vacancies(rows)[i])
            && DropDuplicates(rows)[i] == rows[FirstRowIndex(rows, Vacancies(rows)[i])]
        {
          if i == n {
            assert Vacancies(rows)[i] == last.entityId;
          } else {
            assert Vacancies(rows)[i] == vs[i] && DropDuplicates(rows)[i] == dd[i];
          }
        }
      }
    }
  }

  /** A row whose vacancy is new is the first row of that vacancy. */
  lemma {:induction false} FirstRowIndexNew(front: seq<Row>, last: Row)
    requires last.entityId !in EntityIds(front)
    ensures HasVacancy(front + [last], last.entityId)
    ensures FirstRowIndex(front + [last], last.entityId) == |front|
  {
    var rows := front + [last];
    assert rows[|front|].entityId == last.entityId;
    forall j | 0 <= j < |front| ensures rows[j].entityId != last.entityId {
      assert EntityIds(front)[j] == front[j].entityId;
    }
  }

  /** One more row is kept exactly when its vacancy is new, and then its
      vacancy id joins the list. */
  lemma {:induction false} DropDuplicatesSnoc(front: seq<Row>, last: Row)
    ensures DropDuplicates(front + [last])
      == if last.entityId in EntityIds(front) then DropDuplicates(front) else DropDuplicates(front) + [last]
    ensures Vacancies(front + [last])
      == if last.entityId in EntityIds(front) then Vacancies(front) else Vacancies(front) + [last.entityId]
  {
    var rows := front + [last];
    assert rows[..|rows| - 1] == front;
    assert EntityIds(rows) == EntityIds(front) + [last.entityId];
    assert EntityIds(rows)[..|rows| - 1] == EntityIds(front);
  }

  // ---------------------------------------------------------------------------
  // The cells of a record
  // ---------------------------------------------------------------------------

  /** Rows counted as clicks: those with event `job_visit`, or every row when
      the table has no event names. */
  function ClickIds(t: Table): seq<string>
  {
    if EventNameCol in t.columns then IdsOfEvent(t.rows, JobVisit) else EntityIds(t.rows)
  }

  /** Rows counted as apply starts: those with event `job_apply_start`, and
      none when the table has no event names. */
  function ApplyIds(t: Table): seq<string>
  {
    if EventNameCol in t.columns then IdsOfEvent(t.rows, JobApplyStart) else []
  }

  /** "Title": the title column, else the organisation column, else "Unknown". */
  function TitleCell(columns: seq<string>, row: Row): Option<string>
  {
    if TitleCol in columns then row.title
    else if OrganizationCol in columns then Some(row.organization)
    else Some(Unknown)
  }

  /** "Organisation": the organisation column, else (on the standalone page
      only) the entity-name column, else "Unknown". */
  function OrganisationCell(page: Page, columns: seq<string>, row: Row): string
  {
    if OrganizationCol in columns then row.organization
    else if page == Standalone && EntityNameCol in columns then row.entityName
    else Unknown
  }

  /** "Location (Region)": the standalone page classifies the `regions`
      address; the older dashboard shows its `uk_region` column. */
  function RegionCell(page: Page, columns: seq<string>, row: Row): (region: string)
    ensures page == Standalone ==> region == Unknown || region in RegionNames
  {
    match page
    case Standalone => if RegionsCol in columns then ExtractRegionFromAddress(row.regions) else Unknown
    case Embedded => if UkRegionCol in columns then row.ukRegion else Unknown
  }

  function StartDateCell(columns: seq<string>, row: Row): DateCell
  {
    if StartDateCol in columns then Date(row.startDate) else NotAvailable
  }

  function EndDateCell(columns: seq<string>, row: Row): DateCell
  {
    if EndDateCol in columns then Date(row.endDate) else NotAvailable
  }

  /** The record of the vacancy whose first row is `job`. */
  function RecordOf(t: Table, page: Page, job: Row): (r: VacancyRecord)
    ensures r.jobId == job.entityId
    ensures r.clicks == Count(ClickIds(t), job.entityId) && r.applies == Count(ApplyIds(t), job.entityId)
    ensures r.ratio == Ratio(r.applies, r.clicks)
  {
    var clicks := Count(ClickIds(t), job.entityId);
    var applies := Count(ApplyIds(t), job.entityId);
    VacancyRecord(TitleCell(t.columns, job), OrganisationCell(page, t.columns, job), job.entityId,
                  StartDateCell(t.columns, job), EndDateCell(t.columns, job),
                  RegionCell(page, t.columns, job), clicks, applies, Ratio(applies, clicks))
  }

  /** A record's counts are the numbers of the table's rows with its id and
      the click or apply-start event; without event names every row with its
      id is a click and there are no apply starts. */
  lemma {:induction false} RecordCounts(t: Table, page: Page, job: Row)
    ensures EventNameCol in t.columns ==>
      && RecordOf(t, page, job).clicks == |Filter(t.rows, (r: Row) => r.entityId == job.entityId && r.eventName == JobVisit)|
      && RecordOf(t, page, job).applies == |Filter(t.rows, (r: Row) => r.entityId == job.entityId && r.eventName == JobApplyStart)|
    ensures EventNameCol !in t.columns ==>
      && RecordOf(t, page, job).clicks == |Filter(t.rows, (r: Row) => r.entityId == job.entityId)|
      && RecordOf(t, page, job).applies == 0
  {
    IdsOfEventCount(t.rows, JobVisit, job.entityId);
    IdsOfEventCount(t.rows, JobApplyStart, job.entityId);
    EntityIdsCount(t.rows, job.entityId);
  }

  /** The records of the given first rows, in the same order. */
  function RecordsOf(t: Table, page: Page, jobs: seq<Row>): (rs: seq<VacancyRecord>)
    ensures |rs| == |jobs|
    ensures forall i :: 0 <= i < |jobs| ==> rs[i] == RecordOf(t, page, jobs[i])
  {
    if jobs == [] then [] else RecordsOf(t, page, jobs[..|jobs| - 1]) + [RecordOf(t, page, jobs[|jobs| - 1])]
  }

  /** The unsorted report: one record per vacancy, in order of first appearance. */
  function Records(t: Table, page: Page): seq<VacancyRecord>
  {
    RecordsOf(t, page, DropDuplicates(t.rows))
  }

  /** The sort key of `sort_values('Total Clicks', ascending=False)`. */
  function ByClicksDescending(r: VacancyRecord): int
  {
    -(r.clicks as int)
  }

  function RecordClicks(r: VacancyRecord): int
  {
    r.clicks
  }

  function RecordApplies(r: VacancyRecord): int
  {
    r.applies
  }

  /** `pd.DataFrame(records).sort_values('Total Clicks', ascending=False)` as
      written: a frame built from no records has no columns, so the sort
      raises `KeyError` (`None`); otherwise the records, most clicks first. */
  function SortByTotalClicks(records: seq<VacancyRecord>): (r: Option<seq<VacancyRecord>>)
    ensures r.None? <==> records == []
    ensures r.Some? ==> multiset(r.value) == multiset(records) && SortedBy(r.value, ByClicksDescending)
  {
    if records == [] then None else Some(SortBy(records, ByClicksDescending))
  }

  /** The report as intended: one record per vacancy, most clicks first, and
      an empty report for a table without rows. */
  function VacancyReport(t: Table, page: Page): (view: seq<VacancyRecord>)
    ensures |view| == |Vacancies(t.rows)|
    ensures view == [] <==> t.rows == []
  {
    RecordIds(t, page);
    NoRowsNoVacancies(t.rows);
    SortBy(Records(t, page), ByClicksDescending)
  }

  /** A table has vacancies exactly when it has rows. */
  lemma {:induction false} NoRowsNoVacancies(rows: seq<Row>)
    ensures Vacancies(rows) == [] <==> rows == []
  {
    VacancyCount(rows);
    if rows != [] {
      assert rows[0].entityId in set r | r in rows :: r.entityId;
    }
  }

  /** The sort as written fails exactly on a table without rows, where the
      intended report is empty; on every other table it gives that report. */
  lemma {:induction false} EmptyTableRaises(t: Table, page: Page)
    ensures SortByTotalClicks(Records(t, page)).None? <==> t.rows == []
    ensures t.rows == [] ==> VacancyReport(t, page) == []
    ensures t.rows != [] ==> SortByTotalClicks(Records(t, page)) == Some(VacancyReport(t, page))
  {
    RecordIds(t, page);
    NoRowsNoVacancies(t.rows);
  }

  // ---------------------------------------------------------------------------
  // create_vacancy_view (standalone page)
  // ---------------------------------------------------------------------------

  /** `create_vacancy_view` of the standalone page: for each vacancy in order
      of first appearance, its first row gives the details and the click and
      apply-start rows are counted; the report is then sorted by clicks,
      most first. */
  method CreateVacancyView(t: Table) returns (view: Option<seq<VacancyRecord>>)
    requires EntityIdCol in t.columns || |t.columns| > 0
    ensures view.None? <==> t.rows == []
    ensures view.Some? ==> view.value == VacancyReport(t, Standalone)
  {
    var uniqueJobs := Vacancies(t.rows);
    ghost var jobs := DropDuplicates(t.rows);
    DropDuplicatesLength(t.rows);
    var records: seq<VacancyRecord> := [];
    for i := 0 to |uniqueJobs|
      invariant records == RecordsOf(t, Standalone, jobs[..i])
    {
      var jobId := uniqueJobs[i];
      FirstRowOfVacancy(t.rows, i);
      var job := t.rows[FirstRowIndex(t.rows, jobId)];
      var clicks := Count(ClickIds(t), jobId);
      var applies := Count(ApplyIds(t), jobId);
      var region := RegionCell(Standalone, t.columns, job);
      var record := VacancyRecord(TitleCell(t.columns, job), OrganisationCell(Standalone, t.columns, job),
                                  jobId, StartDateCell(t.columns, job), EndDateCell(t.columns, job),
                                  region, clicks, applies, Ratio(applies, clicks));
      RecordOfCells(t, Standalone, job);
      RecordsOfStep(t, Standalone, jobs, i);
      records := records + [record];
    }
    assert jobs[..|uniqueJobs|] == jobs;
    view := SortByTotalClicks(records);
    EmptyTableRaises(t, Standalone);
  }

  /** There is one first row per vacancy. */
  lemma {:induction false} DropDuplicatesLength(rows: seq<Row>)
    ensures |DropDuplicates(rows)| == |Vacancies(rows)|
  {
    DropDuplicatesFirst(rows);
  }

  /** The `i`-th vacancy's first row is the `i`-th kept row. */
  lemma {:induction false} FirstRowOfVacancy(rows: seq<Row>, i: nat)
    requires i < |Vacancies(rows)|
    ensures HasVacancy(rows, Vacancies(rows)[i])
    ensures i < |DropDuplicates(rows)|
    ensures rows[FirstRowIndex(rows, Vacancies(rows)[i])] == DropDuplicates(rows)[i]
  {
    DropDuplicatesFirst(rows);
  }

  /** A record is made of its cells. */
  lemma {:induction false} RecordOfCells(t: Table, page: Page, job: Row)
    ensures RecordOf(t, page, job)
      == VacancyRecord(TitleCell(t.columns, job), OrganisationCell(page, t.columns, job), job.entityId,
                       StartDateCell(t.columns, job), EndDateCell(t.columns, job), RegionCell(page, t.columns, job),
                       Count(ClickIds(t), job.entityId), Count(ApplyIds(t), job.entityId),
                       Ratio(Count(ApplyIds(t), job.entityId), Count(ClickIds(t), job.entityId)))
  {
  }

  /** One more first row adds its record at the end. */
  lemma {:induction false} RecordsOfStep(t: Table, page: Page, jobs: seq<Row>, i: nat)
    requires i < |jobs|
    ensures RecordsOf(t, page, jobs[..i + 1]) == RecordsOf(t, page, jobs[..i]) + [RecordOf(t, page, jobs[i])]
  {
    assert jobs[..i + 1][..i] == jobs[..i];
  }

  // ---------------------------------------------------------------------------
  // Properties of the report
  // ---------------------------------------------------------------------------

  /** The record ids are the vacancies, once each, in order of first
      appearance. */
  lemma {:induction false} RecordIds(t: Table, page: Page)
    ensures |Records(t, page)| == |Vacancies(t.rows)|
    ensures forall i :: 0 <= i < |Records(t, page)| ==> Records(t, page)[i].jobId == Vacancies(t.rows)[i]
  {
    DropDuplicatesFirst(t.rows);
  }

  /** Summing a per-record count over first rows is summing the per-id
      counts over their ids. */
  lemma {:induction false} SumOfRecordClicks(t: Table, page: Page, jobs: seq<Row>)
    ensures SumOf(RecordsOf(t, page, jobs), RecordClicks) == Sum(CountsOf(ClickIds(t), EntityIds(jobs)))
    ensures SumOf(RecordsOf(t, page, jobs), RecordApplies) == Sum(CountsOf(ApplyIds(t), EntityIds(jobs)))
    decreases |jobs|
  {
    if jobs != [] {
      var front, last := jobs[..|jobs| - 1], jobs[|jobs| - 1];
      SumOfRecordClicks(t, page, front);
      var rs, ids := RecordsOf(t, page, front), EntityIds(front);
      assert RecordsOf(t, page, jobs) == rs + [RecordOf(t, page, last)];
      assert EntityIds(jobs) == ids + [last.entityId];
      CountsOfSnoc(ClickIds(t), ids, last.entityId);
      CountsOfSnoc(ApplyIds(t), ids, last.entityId);
      SumOfSnoc(rs, RecordOf(t, page, last), RecordClicks);
      SumOfSnoc(rs, RecordOf(t, page, last), RecordApplies);
      SumSnoc(CountsOf(ClickIds(t), ids), Count(ClickIds(t), last.entityId));
      SumSnoc(CountsOf(ApplyIds(t), ids), Count(ApplyIds(t), last.entityId));
    }
  }

  /** The ids of the first rows are the vacancies. */
  lemma {:induction false} DropDuplicatesIds(rows: seq<Row>)
    ensures EntityIds(DropDuplicates(rows)) == Vacancies(rows)
  {
    DropDuplicatesFirst(rows);
    var dd := DropDuplicates(rows);
    forall i | 0 <= i < |dd| ensures EntityIds(dd)[i] == Vacancies(rows)[i] {
    }
  }

  /** The report's "Total Clicks" and "Total Apply Start" equal the number of
      click rows and apply-start rows of the table: every such row belongs to
      exactly one vacancy. */
  lemma {:induction false} ReportTotals(t: Table, page: Page)
    ensures SumOf(Records(t, page), RecordClicks) == |ClickIds(t)|
    ensures SumOf(Records(t, page), RecordApplies) == |ApplyIds(t)|
    ensures EventNameCol in t.columns ==> |ClickIds(t)| == CountEvent(t.rows, JobVisit)
    ensures EventNameCol in t.columns ==> |ApplyIds(t)| == CountEvent(t.rows, JobApplyStart)
    ensures EventNameCol !in t.columns ==> |ClickIds(t)| == |t.rows| && |ApplyIds(t)| == 0
  {
    var jobs := DropDuplicates(t.rows);
    SumOfRecordClicks(t, page, jobs);
    DropDuplicatesIds(t.rows);
    var vs := Vacancies(t.rows);
    assert forall x :: x in EntityIds(t.rows) ==> x in vs;
    SumCountsOf(ClickIds(t), vs);
    SumCountsOf(ApplyIds(t), vs);
  }

  /** The sorted report has every record once, most clicks first, and the
      same totals. */
  lemma {:induction false} SortedReport(t: Table, page: Page)
    ensures var view := VacancyReport(t, page);
      && multiset(view) == multiset(Records(t, page))
      && |view| == |Vacancies(t.rows)|
      && (forall i, j :: 0 <= i < j < |view| ==> view[i].clicks >= view[j].clicks)
      && SumOf(view, RecordClicks) == |ClickIds(t)|
      && SumOf(view, RecordApplies) == |ApplyIds(t)|
  {
    var view := VacancyReport(t, page);
    RecordIds(t, page);
    ReportTotals(t, page);
    SumOfPermutation(view, Records(t, page), RecordClicks);
    SumOfPermutation(view, Records(t, page), RecordApplies);
    forall i, j | 0 <= i < j < |view| ensures view[i].clicks >= view[j].clicks {
      assert ByClicksDescending(view[i]) <= ByClicksDescending(view[j]);
    }
  }

  /** The mask selecting the records with `c` clicks. */
  function WithClicks(c: int): (p: VacancyRecord -> bool)
    ensures forall r :: p(r) <==> r.clicks == c
  {
    var p := KeyIs(ByClicksDescending, -c);
    assert forall r :: p(r) <==> ByClicksDescending(r) == -c;
    p
  }

  /** Records with equal clicks keep the order of the unsorted records, which
      is the order in which their vacancies first appear in the table. */
  lemma {:induction false} ReportKeepsTieOrder(t: Table, page: Page, c: int)
    ensures Filter(VacancyReport(t, page), WithClicks(c)) == Filter(Records(t, page), WithClicks(c))
  {
    var records := Records(t, page);
    assert VacancyReport(t, page) == SortBy(records, ByClicksDescending);
    SortKeepsTieOrder(records, c);
  }

  /** The sort by clicks keeps records with equal clicks in their order. */
  lemma {:induction false} SortKeepsTieOrder(records: seq<VacancyRecord>, c: int)
    ensures Filter(SortBy(records, ByClicksDescending), WithClicks(c)) == Filter(records, WithClicks(c))
  {
    SortByStable(records, ByClicksDescending, -c);
  }

  /** A vacancy's record counts only its own rows: it has clicks exactly when
      some click row carries its id. */
  lemma {:induction false} RecordClicksPositive(t: Table, page: Page, job: Row)
    ensures RecordOf(t, page, job).clicks > 0 <==> job.entityId in ClickIds(t)
    ensures RecordOf(t, page, job).applies > 0 <==> job.entityId in ApplyIds(t)
  {
    CountPositive(ClickIds(t), job.entityId);
    CountPositive(ApplyIds(t), job.entityId);
  }

  // ---------------------------------------------------------------------------
  // The region / organisation filter of the report
  // ---------------------------------------------------------------------------

  /** The report filter: an empty selection keeps every record, a non-empty
      one keeps the records whose cell is selected; the order is kept. */
  function FilterVacancies(view: seq<VacancyRecord>, regions: seq<string>, organisations: seq<string>)
    : (r: seq<VacancyRecord>)
    ensures forall x :: x in r <==> x in view && (regions == [] || x.region in regions)
                                             && (organisations == [] || x.organisation in organisations)
    ensures |r| <= |view|
  {
    var byRegion := if regions != [] then Filter(view, (x: VacancyRecord) => x.region in regions) else view;
    if organisations != [] then Filter(byRegion, (x: VacancyRecord) => x.organisation in organisations)
    else byRegion
  }

  /** The filtered report keeps the sorted order of the report. */
  lemma {:induction false} FilterVacanciesInOrder(view: seq<VacancyRecord>, regions: seq<string>, organisations: seq<string>)
    ensures Subsequence(FilterVacancies(view, regions, organisations), view)
  {
    var inRegions := (x: VacancyRecord) => x.region in regions;
    var inOrganisations := (x: VacancyRecord) => x.organisation in organisations;
    var byRegion := FilterIf(view, regions != [], inRegions);
    var r := FilterIf(byRegion, organisations != [], inOrganisations);
    assert FilterVacancies(view, regions, organisations) == r;
    FilterIfSubsequence(view, regions != [], inRegions);
    FilterIfSubsequence(byRegion, organisations != [], inOrganisations);
    SubsequenceTrans(r, byRegion, view);
  }

  /** With both selections empty the report is shown whole. */
  lemma {:induction false} FilterVacanciesNone(view: seq<VacancyRecord>)
    ensures FilterVacancies(view, [], []) == view
  {
  }

  /** Selecting every region and organisation that occurs keeps the report whole. */
  lemma {:induction false} FilterVacanciesAll(view: seq<VacancyRecord>, regions: seq<string>, organisations: seq<string>)
    requires forall x :: x in view ==> x.region in regions && x.organisation in organisations
    ensures FilterVacancies(view, regions, organisations) == view
  {
    FilterKeepsAll(view, (x: VacancyRecord) => x.region in regions);
    FilterKeepsAll(view, (x: VacancyRecord) => x.organisation in organisations);
    if regions != [] && organisations != [] {
      var byRegion := Filter(view, (x: VacancyRecord) => x.region in regions);
      assert byRegion == view;
    }
  }
}
