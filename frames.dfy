/** The event table the dashboard works on: an ordered list of column names
    and a list of rows. Each row carries every column the dashboard reads or
    writes; a field is only meaningful when its column is in `columns`.
    The date, title, location, occupational-field and upgrades cells may be
    missing (NaN / NaT), and are `Option`s whose `None` is the missing value;
    the vacancy id, event name and the other string cells are always present.
    Dates are day numbers. */
module Frames {

  import opened Seqs

  // Column names
  const EntityIdCol: string := "entity_id"
  const EventNameCol: string := "event_name"
  const EventDateCol: string := "event_date"
  const EventDataCol: string := "event_data"
  const StartDateCol: string := "start_date"
  const EndDateCol: string := "end_date"
  const ImporterIdUpperCol: string := "importer_ID"
  const ImporterIdCol: string := "importer_id"
  const ImporterIdStrCol: string := "importer_id_str"
  const ImporterNameCol: string := "importer_name"
  const OrganizationCol: string := "organization_name"
  const EntityNameCol: string := "entity_name"
  const TitleCol: string := "title"
  const RegionsCol: string := "regions"
  const LocationFullCol: string := "location_full"
  const UkRegionCol: string := "uk_region"
  const OccupationalFieldsCol: string := "occupational_fields"
  const OccupationCol: string := "occupation"
  const UpgradesCol: string := "upgrades"
  const UpgradesListCol: string := "upgrades_list"

  /** The label of a missing value (an unrecognised region, an absent
      occupation or importer). */
  const Unknown: string := "Unknown"

  // Event names
  const JobVisit: string := "job_visit"
  const JobApplyStart: string := "job_apply_start"

  /** One row of the table. `entityId` is the value in the vacancy-id column
      (`entity_id`, or the first column when there is none); `importerId` is
      the importer-id cell as `str()` renders it. */
  datatype Row = Row(
    entityId: string,
    eventName: string,
    eventDate: Option<int>,
    startDate: Option<int>,
    endDate: Option<int>,
    importerId: string,
    importerIdStr: string,
    importerName: string,
    organization: string,
    entityName: string,
    title: Option<string>,
    regions: Option<string>,
    locationFull: Option<string>,
    ukRegion: string,
    occupationalFields: Option<string>,
    occupation: string,
    upgrades: Option<string>,
    upgradesList: seq<string>)

  /** A table as a value: what `df.copy()` takes and what a copy returns. */
  datatype Table = Table(columns: seq<string>, rows: seq<Row>)

  /** The column list after assigning column `c`: an existing column keeps
      its place, a new one is appended. */
  function WithColumn(columns: seq<string>, c: string): (r: seq<string>)
    ensures c in r
    ensures forall x :: x in columns ==> x in r
    ensures forall x :: x in r ==> x in columns || x == c
    ensures columns <= r
  {
    if c in columns then columns else columns + [c]
  }

  /** The vacancy-id column: `entity_id` when present, else the first column. */
  function EntityColumn(columns: seq<string>): (c: string)
    requires EntityIdCol in columns || |columns| > 0
    ensures c in columns
    ensures EntityIdCol in columns ==> c == EntityIdCol
    ensures EntityIdCol !in columns ==> c == columns[0]
  {
    if EntityIdCol in columns then EntityIdCol else columns[0]
  }

  /** A table whose rows the caller's code updates in place. */
  class Frame {
    var columns: seq<string>
    var rows: seq<Row>

    constructor (t: Table)
      ensures columns == t.columns && rows == t.rows
    {
      columns := t.columns;
      rows := t.rows;
    }

    /** The frame's current contents as a value. */
    function Contents(): Table
      reads this
    {
      Table(columns, rows)
    }

    /** `df.copy()`: a new frame with the same contents. */
    method Copy() returns (f: Frame)
      ensures fresh(f)
      ensures f.Contents() == Contents()
    {
      f := new Frame(Contents());
    }
  }
}
