/** The effort chart: the stored effort records of a project up to a date,
    newest first, with a record for that date computed on the fly when none
    was stored. */
module EffortChart {

  import opened Base
  import opened RubyHash
  import opened EffortMetrics
  import opened EffortTable

  /** A stored `BscEffort` row. The per-profile breakdowns are columns that
      may be `nil`. */
  datatype EffortRecord = EffortRecord(
    projectId: ProjectId,
    date: Date,
    scheduledHours: real,
    incurredHours: real,
    scheduledDetails: Option<Hash>,
    incurredDetails: Option<Hash>,
    scheduledFinishDate: Option<Date>)

  /** One point of the chart series. */
  datatype ChartPoint = ChartPoint(
    date: Date,
    projectId: ProjectId,
    scheduledHours: real,
    incurredHours: real,
    scheduledDetails: Hash,
    incurredDetails: Hash,
    scheduledFinishDate: Option<Date>)

  /** `get_date(project, date)`: the record of the metrics for `date`, not
      saved; its breakdowns are present, so they read back as the metrics'. */
  function GetDate(project: ProjectId, date: Date, m: Metrics): (e: EffortRecord)
    ensures e.projectId == project && e.date == date
    ensures e.scheduledHours == m.hoursScheduled && e.incurredHours == m.hoursIncurred
    ensures e.scheduledDetails == Some(m.scheduledByProfile) && e.incurredDetails == Some(m.incurredByProfile)
    ensures e.scheduledFinishDate == m.scheduledFinishDate
  {
    EffortRecord(project, date, m.hoursScheduled, m.hoursIncurred,
                 Some(m.scheduledByProfile), Some(m.incurredByProfile), m.scheduledFinishDate)
  }

  /** The stored records of `project` dated up to `endDate`, in table order;
      the table itself is taken to be newest first, as the query orders it. */
  function Stored(table: seq<EffortRecord>, project: ProjectId, endDate: Date): (rows: seq<EffortRecord>)
    ensures forall e :: e in rows <==> e in table && e.projectId == project && e.date <= endDate
    ensures |rows| <= |table|
  {
    if table == [] then []
    else
      var rest := Stored(table[1..], project, endDate);
      assert forall e :: e in table <==> e == table[0] || e in table[1..];
      if table[0].projectId == project && table[0].date <= endDate then [table[0]] + rest else rest
  }

  /** The query is a filter: over a concatenation it is the concatenation of
      the filtered parts, so order and repeated records are kept. */
  lemma {:induction false} StoredAppend(a: seq<EffortRecord>, b: seq<EffortRecord>, project: ProjectId, endDate: Date)
    ensures Stored(a + b, project, endDate) == Stored(a, project, endDate) + Stored(b, project, endDate)
  {
    if a == [] {
      assert a + b == b;
    } else {
      assert (a + b)[0] == a[0];
      assert (a + b)[1..] == a[1..] + b;
      StoredAppend(a[1..], b, project, endDate);
    }
  }

  /** A single record is kept exactly when it is the project's and dated up
      to `endDate`. */
  lemma StoredSingle(e: EffortRecord, project: ProjectId, endDate: Date)
    ensures Stored([e], project, endDate) == if e.projectId == project && e.date <= endDate then [e] else []
  {
  }

  /** Some record of `rows` is dated `d`. */
  predicate HasDate(rows: seq<EffortRecord>, d: Date) {
    exists i :: 0 <= i < |rows| && rows[i].date == d
  }

  /** The stored records, behind a fresh record for `endDate` when none of
      them is dated `endDate`. */
  function Series(table: seq<EffortRecord>, project: ProjectId, endDate: Date, m: Metrics): seq<EffortRecord> {
    var stored := Stored(table, project, endDate);
    if HasDate(stored, endDate) then stored else [GetDate(project, endDate, m)] + stored
  }

  /** A record as a chart point; a `nil` breakdown reads as an empty hash. */
  function ToPoint(e: EffortRecord): ChartPoint {
    ChartPoint(e.date, e.projectId, e.scheduledHours, e.incurredHours,
               e.scheduledDetails.GetOr([]), e.incurredDetails.GetOr([]), e.scheduledFinishDate)
  }

  /** Every record of the series turned into a chart point, in order. */
  function Points(series: seq<EffortRecord>): (points: seq<ChartPoint>)
    ensures |points| == |series|
    ensures forall i :: 0 <= i < |series| ==> points[i] == ToPoint(series[i])
  {
    seq(|series|, i requires 0 <= i < |series| => ToPoint(series[i]))
  }

  /** `get_chart_data(project, end_date)`: the points of the stored records
      in their order, preceded by a fresh point for `end_date` exactly when
      no stored record has that date. */
  function ChartData(table: seq<EffortRecord>, project: ProjectId, endDate: Date, m: Metrics)
    : (points: seq<ChartPoint>)
    ensures var stored := Stored(table, project, endDate);
            !HasDate(stored, endDate) ==>
              && |points| == |stored| + 1
              && points[0] == ChartPoint(endDate, project, m.hoursScheduled, m.hoursIncurred,
                                         m.scheduledByProfile, m.incurredByProfile, m.scheduledFinishDate)
              && forall i :: 0 <= i < |stored| ==> points[i + 1] == ToPoint(stored[i])
    ensures var stored := Stored(table, project, endDate);
            HasDate(stored, endDate) ==>
              && |points| == |stored|
              && forall i :: 0 <= i < |stored| ==> points[i] == ToPoint(stored[i])
    ensures exists i :: 0 <= i < |points| && points[i].date == endDate
    ensures forall i :: 0 <= i < |points| ==> points[i].projectId == project && points[i].date <= endDate
  {
    SeriesFacts(table, project, endDate, m);
    var series := Series(table, project, endDate, m);
    var points := Points(series);
    assert forall i :: 0 <= i < |points| ==> points[i] == ToPoint(series[i]);
    var stored := Stored(table, project, endDate);
    if HasDate(stored, endDate) then
      assert series == stored;
      points
    else
      assert series == [GetDate(project, endDate, m)] + stored;
      assert forall i :: 0 <= i < |stored| ==> series[i + 1] == stored[i];
      assert points[0] == ToPoint(GetDate(project, endDate, m));
      points
  }

  /** The series holds a record for `endDate`, and only records of the
      project dated up to `endDate`. */
  lemma SeriesFacts(table: seq<EffortRecord>, project: ProjectId, endDate: Date, m: Metrics)
    ensures var series := Series(table, project, endDate, m);
            && (exists i :: 0 <= i < |series| && series[i].date == endDate)
            && (forall i :: 0 <= i < |series| ==> series[i].projectId == project && series[i].date <= endDate)
  {
    var stored := Stored(table, project, endDate);
    var series := Series(table, project, endDate, m);
    assert forall i :: 0 <= i < |stored| ==> stored[i] in stored;
    if HasDate(stored, endDate) {
      var i :| 0 <= i < |stored| && stored[i].date == endDate;
      assert series[i].date == endDate;
    } else {
      assert series[0].date == endDate;
    }
  }

  /** The table rows are newest first. */
  predicate Newest(rows: seq<EffortRecord>) {
    forall i, j :: 0 <= i < j < |rows| ==> rows[i].date >= rows[j].date
  }

  /** The chart points are newest first. */
  predicate NewestPoints(points: seq<ChartPoint>) {
    forall i, j :: 0 <= i < j < |points| ==> points[i].date >= points[j].date
  }

  lemma {:induction false} StoredNewest(table: seq<EffortRecord>, project: ProjectId, endDate: Date)
    requires Newest(table)
    ensures Newest(Stored(table, project, endDate))
  {
    if table != [] {
      StoredNewest(table[1..], project, endDate);
      var rest := Stored(table[1..], project, endDate);
      forall j | 0 <= j < |rest| ensures table[0].date >= rest[j].date {
        assert rest[j] in table[1..];
      }
    }
  }

  /** Ordered newest first, the table gives a chart that is newest first. */
  lemma ChartNewestFirst(table: seq<EffortRecord>, project: ProjectId, endDate: Date, m: Metrics)
    requires Newest(table)
    ensures NewestPoints(ChartData(table, project, endDate, m))
  {
    StoredNewest(table, project, endDate);
    var stored := Stored(table, project, endDate);
    var series := Series(table, project, endDate, m);
    assert Newest(series) by {
      if !HasDate(stored, endDate) {
        forall j | 0 <= j < |stored| ensures endDate >= stored[j].date {
          assert stored[j] in stored;
        }
      }
    }
    assert ChartData(table, project, endDate, m) == Points(series);
  }

  /** If the table holds at most one record per date for the project, the
      chart has exactly one point dated `endDate`. */
  lemma ChartHasOneEndPoint(table: seq<EffortRecord>, project: ProjectId, endDate: Date, m: Metrics)
    requires OnePerDate(table, project)
    ensures var points := ChartData(table, project, endDate, m);
            forall i, j :: (0 <= i < |points| && 0 <= j < |points|
                            && points[i].date == endDate && points[j].date == endDate) ==> i == j
  {
    StoredDistinctDates(table, project, endDate);
    var stored := Stored(table, project, endDate);
    var series := Series(table, project, endDate, m);
    assert DistinctDates(series) by {
      if !HasDate(stored, endDate) {
        forall i, j | 0 <= i < j < |series| ensures series[i].date != series[j].date {
          assert series[j] == stored[j - 1];
          if i > 0 {
            assert series[i] == stored[i - 1];
          } else {
            assert stored[j - 1].date != endDate;
          }
        }
      }
    }
    assert ChartData(table, project, endDate, m) == Points(series);
  }

  /** No two records share a date. */
  predicate DistinctDates(rows: seq<EffortRecord>) {
    forall i, j :: 0 <= i < j < |rows| ==> rows[i].date != rows[j].date
  }

  /** The table holds at most one record per date for `project`. */
  predicate OnePerDate(table: seq<EffortRecord>, project: ProjectId) {
    forall i, j :: 0 <= i < j < |table| && table[i].projectId == project && table[j].projectId == project
                   ==> table[i].date != table[j].date
  }

  lemma {:induction false} StoredDistinctDates(table: seq<EffortRecord>, project: ProjectId, endDate: Date)
    requires OnePerDate(table, project)
    ensures DistinctDates(Stored(table, project, endDate))
  {
    if table != [] {
      assert OnePerDate(table[1..], project) by {
        forall i, j | 0 <= i < j < |table[1..]| && table[1..][i].projectId == project
                      && table[1..][j].projectId == project
          ensures table[1..][i].date != table[1..][j].date
        {
          assert table[1..][i] == table[i + 1] && table[1..][j] == table[j + 1];
        }
      }
      StoredDistinctDates(table[1..], project, endDate);
      var rest := Stored(table[1..], project, endDate);
      if table[0].projectId == project && table[0].date <= endDate {
        var s := [table[0]] + rest;
        forall j | 0 <= j < |rest| ensures table[0].date != rest[j].date {
          assert rest[j] in rest;
          assert rest[j] in table[1..] && rest[j].projectId == project;
          var k :| 0 <= k < |table[1..]| && table[1..][k] == rest[j];
          assert table[k + 1] == rest[j];
        }
        forall i, j | 0 <= i < j < |s| ensures s[i].date != s[j].date {
          if i == 0 {
            assert s[j] == rest[j - 1];
          } else {
            assert s[i] == rest[i - 1] && s[j] == rest[j - 1];
            assert rest[i - 1].date != rest[j - 1].date;
          }
        }
        assert Stored(table, project, endDate) == s;
      } else {
        assert Stored(table, project, endDate) == rest;
      }
    }
  }

  /** Without one record per date, the end date can appear twice: two stored
      records of the project dated at the end date give two points. */
  lemma ChartTwoEndPoints(r: EffortRecord, m: Metrics)
    ensures var points := ChartData([r, r], r.projectId, r.date, m);
            |points| == 2 && points[0].date == r.date && points[1].date == r.date
  {
    var table := [r, r];
    assert Stored(table, r.projectId, r.date) == table by {
      StoredAppend([r], [r], r.projectId, r.date);
      assert table == [r] + [r];
    }
    assert HasDate(table, r.date) by {
      assert table[0].date == r.date;
    }
  }

  /** A stored breakdown column that is `nil` reads as an empty hash. */
  lemma NilDetailsReadEmpty(e: EffortRecord)
    requires e.scheduledDetails.None?
    ensures ToPoint(e).scheduledDetails == []
    ensures forall k :: Fetch(ToPoint(e).scheduledDetails, k) == 0.0
  {
  }

  /** All the data of the effort page. */
  datatype EffortData = EffortData(chart: seq<ChartPoint>, rows: seq<Row>, scheduledFinishDate: Option<Date>)

  /** `get_data(project, date)`: the chart up to `date`, the table for `date`
      and the scheduled finish date, all from the same metrics. It raises
      when building the table raises: an empty profile directory while some
      profile has remaining effort. */
  function GetData(table: seq<EffortRecord>, project: ProjectId, date: Date, m: Metrics,
                   profiles: seq<Profile>, num: Hash): (r: Result<EffortData, TableError>)
    ensures r.Failure? <==> profiles == [] && |m.remainingByProfile| > 0
    ensures r.Success? ==> r.value.chart == ChartData(table, project, date, m)
    ensures r.Success? ==> r.value.rows == TableData(m, profiles, num, date)
    ensures r.Success? ==> exists i :: 0 <= i < |r.value.chart| && r.value.chart[i].date == date
    ensures r.Success? ==> r.value.scheduledFinishDate == m.scheduledFinishDate
  {
    var chart := ChartData(table, project, date, m);
    match TableDataAsWritten(m, profiles, num, date)
    case Failure(e) => Failure(e)
    case Success(rows) => Success(EffortData(chart, rows, m.scheduledFinishDate))
  }
}
