/** Headcount per workforce profile across a project hierarchy, taken from
    the last checkpoint of every project that has one. */
module Headcount {

  import opened Base
  import opened RubyHash

  /** A moment; `date` is its calendar date (`to_date`). */
  datatype Timestamp = Timestamp(date: Date)

  /** One line of a checkpoint: how many people of a profile are planned. */
  datatype CheckpointEffort = CheckpointEffort(profile: ProfileId, number: real)

  /** A project snapshot and its effort lines. */
  datatype Checkpoint = Checkpoint(updatedAt: Timestamp, efforts: seq<CheckpointEffort>)

  /** `p.last_checkpoint(date)`: the most recent checkpoint of project `p` at
      or before `date`, or `nil`. */
  type CheckpointLookup = (ProjectId, Date) -> Option<Checkpoint>

  /** The last checkpoint at `date` of each project, in hierarchy order, skipping projects without one. */
  function LastCheckpoints(projects: seq<ProjectId>, lastCheckpoint: CheckpointLookup, date: Date)
    : (ckps: seq<Checkpoint>)
    ensures |ckps| <= |projects|
    ensures forall c :: c in ckps <==> exists p :: p in projects && lastCheckpoint(p, date) == Some(c)
  {
    if projects == [] then []
    else
      var rest := LastCheckpoints(projects[1..], lastCheckpoint, date);
      assert forall p :: p in projects <==> p == projects[0] || p in projects[1..];
      match lastCheckpoint(projects[0], date)
      case None => rest
      case Some(c) => [c] + rest
  }

  /** Collecting last checkpoints is a filter: over a concatenation of
      project lists it is the concatenation of the parts, so hierarchy order
      and equal checkpoints of different projects are kept. */
  lemma {:induction false} LastCheckpointsAppend(a: seq<ProjectId>, b: seq<ProjectId>,
                                                 lastCheckpoint: CheckpointLookup, date: Date)
    ensures LastCheckpoints(a + b, lastCheckpoint, date)
            == LastCheckpoints(a, lastCheckpoint, date) + LastCheckpoints(b, lastCheckpoint, date)
  {
    if a == [] {
      assert a + b == b;
    } else {
      assert (a + b)[0] == a[0];
      assert (a + b)[1..] == a[1..] + b;
      LastCheckpointsAppend(a[1..], b, lastCheckpoint, date);
    }
  }

  /** One project contributes its last checkpoint, or nothing without one. */
  lemma LastCheckpointsSingle(p: ProjectId, lastCheckpoint: CheckpointLookup, date: Date)
    ensures LastCheckpoints([p], lastCheckpoint, date)
            == match lastCheckpoint(p, date) case None => [] case Some(c) => [c]
  {
  }

  /** All effort lines of the given checkpoints, in order. */
  function Efforts(ckps: seq<Checkpoint>): seq<CheckpointEffort> {
    if ckps == [] then [] else ckps[0].efforts + Efforts(ckps[1..])
  }

  /** The loop `num_profiles[eff.hr_profile_id] += eff.number`, starting from `h`. */
  function Tally(h: seq<Entry>, effs: seq<CheckpointEffort>): seq<Entry>
    decreases |effs|
  {
    if effs == [] then h else Tally(Add(h, effs[0].profile, effs[0].number), effs[1..])
  }

  /** Reference definition: the headcount of profile `k` in a list of effort lines. */
  function LinesOf(effs: seq<CheckpointEffort>, k: ProfileId): real {
    if effs == [] then 0.0
    else (if effs[0].profile == k then effs[0].number else 0.0) + LinesOf(effs[1..], k)
  }

  /** Reference definition: the headcount of all effort lines. */
  function LinesTotal(effs: seq<CheckpointEffort>): real {
    if effs == [] then 0.0 else effs[0].number + LinesTotal(effs[1..])
  }

  /** Reference definition: the headcount of profile `k` summed over every
      project of the hierarchy whose last checkpoint at `date` exists. */
  function HierarchyHeadcount(projects: seq<ProjectId>, lastCheckpoint: CheckpointLookup, date: Date,
                              k: ProfileId): real
  {
    if projects == [] then 0.0
    else
      (match lastCheckpoint(projects[0], date)
       case None => 0.0
       case Some(c) => LinesOf(c.efforts, k))
      + HierarchyHeadcount(projects[1..], lastCheckpoint, date, k)
  }

  /** Reference definition: all headcount of the hierarchy's last checkpoints. */
  function HierarchyTotal(projects: seq<ProjectId>, lastCheckpoint: CheckpointLookup, date: Date): real {
    if projects == [] then 0.0
    else
      (match lastCheckpoint(projects[0], date)
       case None => 0.0
       case Some(c) => LinesTotal(c.efforts))
      + HierarchyTotal(projects[1..], lastCheckpoint, date)
  }

  /** Profile `k` has a line among `effs`. */
  predicate HasLine(effs: seq<CheckpointEffort>, k: ProfileId) {
    exists j :: 0 <= j < |effs| && effs[j].profile == k
  }

  /** Reference definition: profile `k` has a line in the last checkpoint of
      some project of the hierarchy. */
  predicate Appears(projects: seq<ProjectId>, lastCheckpoint: CheckpointLookup, date: Date, k: ProfileId) {
    projects != []
    && ((lastCheckpoint(projects[0], date).Some? && HasLine(lastCheckpoint(projects[0], date).value.efforts, k))
        || Appears(projects[1..], lastCheckpoint, date, k))
  }

  lemma HasLineCons(effs: seq<CheckpointEffort>, k: ProfileId)
    requires effs != []
    ensures HasLine(effs, k) <==> effs[0].profile == k || HasLine(effs[1..], k)
  {
  }

  lemma HasLineAppend(a: seq<CheckpointEffort>, b: seq<CheckpointEffort>, k: ProfileId)
    ensures HasLine(a + b, k) <==> HasLine(a, k) || HasLine(b, k)
  {
    if HasLine(a + b, k) {
      var j :| 0 <= j < |a + b| && (a + b)[j].profile == k;
      if j >= |a| { assert b[j - |a|].profile == k; }
    }
    if HasLine(b, k) {
      var j :| 0 <= j < |b| && b[j].profile == k;
      assert (a + b)[|a| + j].profile == k;
    }
    if HasLine(a, k) {
      var j :| 0 <= j < |a| && a[j].profile == k;
      assert (a + b)[j].profile == k;
    }
  }

  lemma {:induction false} LinesOfAppend(a: seq<CheckpointEffort>, b: seq<CheckpointEffort>, k: ProfileId)
    ensures LinesOf(a + b, k) == LinesOf(a, k) + LinesOf(b, k)
  {
    if a == [] {
      assert a + b == b;
    } else {
      assert (a + b)[0] == a[0];
      assert (a + b)[1..] == a[1..] + b;
      LinesOfAppend(a[1..], b, k);
    }
  }

  lemma {:induction false} LinesTotalAppend(a: seq<CheckpointEffort>, b: seq<CheckpointEffort>)
    ensures LinesTotal(a + b) == LinesTotal(a) + LinesTotal(b)
  {
    if a == [] {
      assert a + b == b;
    } else {
      assert (a + b)[0] == a[0];
      assert (a + b)[1..] == a[1..] + b;
      LinesTotalAppend(a[1..], b);
    }
  }

  /** Folding effort lines into a hash adds each profile's lines to what the
      hash held, keeps the hash's keys in place and appends new profiles. */
  lemma {:induction false} TallyAdds(h: seq<Entry>, effs: seq<CheckpointEffort>)
    ensures forall k :: Fetch(Tally(h, effs), k) == Fetch(h, k) + LinesOf(effs, k)
    ensures Sum(Tally(h, effs)) == Sum(h) + LinesTotal(effs)
    ensures DistinctKeys(h) ==> DistinctKeys(Tally(h, effs))
    ensures forall k :: k in Keys(Tally(h, effs)) <==> k in Keys(h) || HasLine(effs, k)
    decreases |effs|
  {
    if effs != [] {
      var h' := Add(h, effs[0].profile, effs[0].number);
      TallyAdds(h', effs[1..]);
      forall k ensures k in Keys(Tally(h, effs)) <==> k in Keys(h) || HasLine(effs, k) {
        HasLineCons(effs, k);
      }
    }
  }

  /** Flattening the last checkpoints first loses no profile's headcount. */
  lemma {:induction false} EffortsPerProfile(projects: seq<ProjectId>, lastCheckpoint: CheckpointLookup,
                                             date: Date, k: ProfileId)
    ensures LinesOf(Efforts(LastCheckpoints(projects, lastCheckpoint, date)), k)
            == HierarchyHeadcount(projects, lastCheckpoint, date, k)
  {
    if projects != [] {
      EffortsPerProfile(projects[1..], lastCheckpoint, date, k);
      match lastCheckpoint(projects[0], date)
      case None =>
      case Some(c) =>
        LinesOfAppend(c.efforts, Efforts(LastCheckpoints(projects[1..], lastCheckpoint, date)), k);
    }
  }

  /** Flattening the last checkpoints first loses no headcount in total. */
  lemma {:induction false} EffortsTotal(projects: seq<ProjectId>, lastCheckpoint: CheckpointLookup, date: Date)
    ensures LinesTotal(Efforts(LastCheckpoints(projects, lastCheckpoint, date)))
            == HierarchyTotal(projects, lastCheckpoint, date)
  {
    if projects != [] {
      EffortsTotal(projects[1..], lastCheckpoint, date);
      match lastCheckpoint(projects[0], date)
      case None =>
      case Some(c) =>
        LinesTotalAppend(c.efforts, Efforts(LastCheckpoints(projects[1..], lastCheckpoint, date)));
    }
  }

  /** Flattening the last checkpoints first keeps exactly the profiles that have a line. */
  lemma {:induction false} EffortsProfiles(projects: seq<ProjectId>, lastCheckpoint: CheckpointLookup,
                                           date: Date, k: ProfileId)
    ensures HasLine(Efforts(LastCheckpoints(projects, lastCheckpoint, date)), k)
            <==> Appears(projects, lastCheckpoint, date, k)
  {
    if projects != [] {
      EffortsProfiles(projects[1..], lastCheckpoint, date, k);
      match lastCheckpoint(projects[0], date)
      case None =>
      case Some(c) =>
        HasLineAppend(c.efforts, Efforts(LastCheckpoints(projects[1..], lastCheckpoint, date)), k);
    }
  }

  /** `get_profiles_number(project, date)`: for every profile, the summed
      headcount of the hierarchy's last checkpoints at `date`; a profile that
      has no line anywhere is not a key and reads as 0. */
  function ProfilesNumber(projects: seq<ProjectId>, lastCheckpoint: CheckpointLookup, date: Date)
    : (num: Hash)
    ensures forall k :: Fetch(num, k) == HierarchyHeadcount(projects, lastCheckpoint, date, k)
    ensures forall k :: k in Keys(num) <==> Appears(projects, lastCheckpoint, date, k)
    ensures Sum(num) == HierarchyTotal(projects, lastCheckpoint, date)
  {
    var effs := Efforts(LastCheckpoints(projects, lastCheckpoint, date));
    TallyAdds([], effs);
    EffortsTotal(projects, lastCheckpoint, date);
    assert forall k :: Fetch(Tally([], effs), k) == HierarchyHeadcount(projects, lastCheckpoint, date, k) by {
      forall k ensures Fetch(Tally([], effs), k) == HierarchyHeadcount(projects, lastCheckpoint, date, k) {
        EffortsPerProfile(projects, lastCheckpoint, date, k);
      }
    }
    assert forall k :: k in Keys(Tally([], effs)) <==> Appears(projects, lastCheckpoint, date, k) by {
      forall k ensures k in Keys(Tally([], effs)) <==> Appears(projects, lastCheckpoint, date, k) {
        EffortsProfiles(projects, lastCheckpoint, date, k);
      }
    }
    Tally([], effs)
  }
}
