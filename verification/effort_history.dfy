/** The historic recorder: it walks a date range and saves an effort record
    for every day on which a checkpoint of the project hierarchy was updated. */
module EffortHistory {

  import opened Base
  import opened Headcount
  import opened EffortMetrics
  import opened EffortChart

  /** The last checkpoints at `date` of the hierarchy's projects that were
      updated on `date` itself. */
  function Changes(projects: seq<ProjectId>, lastCheckpoint: CheckpointLookup, date: Date)
    : (changes: seq<Checkpoint>)
    ensures forall c :: c in changes
                        <==> c.updatedAt.date == date
                             && exists p :: p in projects && lastCheckpoint(p, date) == Some(c)
  {
    if projects == [] then []
    else
      var rest := Changes(projects[1..], lastCheckpoint, date);
      assert forall p :: p in projects <==> p == projects[0] || p in projects[1..];
      match lastCheckpoint(projects[0], date)
      case Some(c) => if c.updatedAt.date == date then [c] + rest else rest
      case None => rest
  }

  /** The selection is a filter: over a concatenation of project lists it is
      the concatenation of the parts. */
  lemma {:induction false} ChangesAppend(a: seq<ProjectId>, b: seq<ProjectId>,
                                         lastCheckpoint: CheckpointLookup, date: Date)
    ensures Changes(a + b, lastCheckpoint, date)
            == Changes(a, lastCheckpoint, date) + Changes(b, lastCheckpoint, date)
  {
    if a == [] {
      assert a + b == b;
    } else {
      assert (a + b)[0] == a[0];
      assert (a + b)[1..] == a[1..] + b;
      ChangesAppend(a[1..], b, lastCheckpoint, date);
    }
  }

  /** Some project of the hierarchy has a last checkpoint at `date` that was
      updated that very day. */
  predicate UpdatedOn(projects: seq<ProjectId>, lastCheckpoint: CheckpointLookup, date: Date) {
    exists p :: p in projects && lastCheckpoint(p, date).Some? && lastCheckpoint(p, date).value.updatedAt.date == date
  }

  lemma ChangesPresentIff(projects: seq<ProjectId>, lastCheckpoint: CheckpointLookup, date: Date)
    ensures |Changes(projects, lastCheckpoint, date)| > 0 <==> UpdatedOn(projects, lastCheckpoint, date)
  {
  }

  /** `record_date(project, start_date, end_date)`: the records saved, in the
      order they are saved. A day of `start_date..end_date` gets a record
      exactly when the hierarchy had a checkpoint updated on it, the record
      holds the metrics of that day, and no other day gets one. */
  method RecordDate(project: ProjectId, projects: seq<ProjectId>, lastCheckpoint: CheckpointLookup,
                    metricsAt: Date -> Metrics, startDate: Date, endDate: Date)
    returns (saved: seq<EffortRecord>)
    ensures forall i :: 0 <= i < |saved| ==>
              && startDate <= saved[i].date <= endDate
              && UpdatedOn(projects, lastCheckpoint, saved[i].date)
              && saved[i] == GetDate(project, saved[i].date, metricsAt(saved[i].date))
    ensures forall d :: startDate <= d <= endDate && UpdatedOn(projects, lastCheckpoint, d)
                        ==> exists i :: 0 <= i < |saved| && saved[i].date == d
    ensures forall i, j :: 0 <= i < j < |saved| ==> saved[i].date < saved[j].date
  {
    saved := [];
    var date := startDate;
    while date <= endDate
      invariant startDate <= date
      invariant date <= endDate + 1 || date == startDate
      invariant forall i :: 0 <= i < |saved| ==>
                  && startDate <= saved[i].date < date
                  && UpdatedOn(projects, lastCheckpoint, saved[i].date)
                  && saved[i] == GetDate(project, saved[i].date, metricsAt(saved[i].date))
      invariant forall d :: startDate <= d < date && UpdatedOn(projects, lastCheckpoint, d)
                            ==> exists i :: 0 <= i < |saved| && saved[i].date == d
      invariant forall i, j :: 0 <= i < j < |saved| ==> saved[i].date < saved[j].date
      decreases endDate - date
    {
      var changes := Changes(projects, lastCheckpoint, date);
      ChangesPresentIff(projects, lastCheckpoint, date);
      if |changes| > 0 {
        ghost var before := saved;
        saved := saved + [GetDate(project, date, metricsAt(date))];
        assert forall i :: 0 <= i < |before| ==> saved[i] == before[i];
        assert saved[|saved| - 1].date == date;
      }
      date := date + 1;
    }
  }
}
