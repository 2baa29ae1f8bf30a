/** The effort table and the dashboard header: one row per profile with
    remaining effort, a closing Total row, and a count of the profiles whose
    ideal capacity carries advice. */
module EffortTable {

  import opened Base
  import opened RubyHash
  import opened Advice
  import opened IdealCapacity
  import opened EffortMetrics
  import Headcount

  /** An entry of the workforce-profile directory. */
  datatype Profile = Profile(id: ProfileId, name: string)

  /** What stands in the name column. */
  datatype Label = ProfileName(name: Option<string>) | TotalLabel

  /** The ideal-capacity column: a figure, or the placeholder "-". */
  datatype Cell = Rate(value: real) | Dash

  /** One line of the effort table. */
  datatype Row = Row(title: Label, number: real, scheduled: real, incurred: real, remaining: real,
                     idealCapacity: Cell, details: seq<Word>)

  /** The error Ruby raises when indexing `nil`. */
  datatype TableError = UndefinedMethodOnNil

  /** The names of a non-empty directory merged left to right: a later entry
      for the same id replaces an earlier one. */
  function MergeNames(profiles: seq<Profile>): (names: map<ProfileId, string>)
    requires |profiles| > 0
    ensures forall i :: 0 <= i < |profiles| ==> profiles[i].id in names
    ensures forall id :: id in names ==> exists i :: 0 <= i < |profiles| && profiles[i].id == id
    ensures names[profiles[|profiles| - 1].id] == profiles[|profiles| - 1].name
  {
    var last := profiles[|profiles| - 1];
    if |profiles| == 1 then map[last.id := last.name]
    else
      var front := profiles[..|profiles| - 1];
      assert forall i :: 0 <= i < |front| ==> front[i] == profiles[i];
      MergeNames(front)[last.id := last.name]
  }

  /** In the merged directory an id carries the name of its last entry. */
  lemma {:induction false} LastNameWins(profiles: seq<Profile>, i: nat)
    requires i < |profiles|
    requires forall j :: i < j < |profiles| ==> profiles[j].id != profiles[i].id
    ensures MergeNames(profiles)[profiles[i].id] == profiles[i].name
  {
    if i < |profiles| - 1 {
      var front := profiles[..|profiles| - 1];
      assert front[i] == profiles[i];
      LastNameWins(front, i);
    }
  }

  /** The id-to-name map built by merging one single-entry map per directory
      entry: `nil` when the directory is empty, since a `reduce` without a
      seed over nothing returns `nil`. */
  function ProfileNames(profiles: seq<Profile>): (names: Option<map<ProfileId, string>>)
    ensures names.None? <==> profiles == []
    ensures names.Some? ==> names.value == MergeNames(profiles)
  {
    if profiles == [] then None else Some(MergeNames(profiles))
  }

  /** `names[profile]` with `names` a map: `nil` for an unknown profile. */
  function NameIn(names: map<ProfileId, string>, k: ProfileId): Option<string> {
    if k in names then Some(names[k]) else None
  }

  /** The ideal capacity of profile `k`, from its remaining hours, its
      headcount and the days left. */
  function CapacityOf(remaining: Hash, num: Hash, days: int, k: ProfileId): Capacity {
    GetIdealCapacity(Fetch(remaining, k), Fetch(num, k), days)
  }

  /** The row of profile `k`. */
  function ProfileRow(name: Option<string>, m: Metrics, num: Hash, days: int, k: ProfileId): Row {
    var c := CapacityOf(m.remainingByProfile, num, days, k);
    Row(ProfileName(name), Fetch(num, k), Fetch(m.scheduledByProfile, k), Fetch(m.incurredByProfile, k),
        Fetch(m.remainingByProfile, k), Rate(c.value), c.Text())
  }

  /** The closing row: sums over every key of each hash, "-" and no advice. */
  function TotalRow(m: Metrics, num: Hash): Row {
    Row(TotalLabel, Sum(num), Sum(m.scheduledByProfile), Sum(m.incurredByProfile),
        Sum(m.remainingByProfile), Dash, [])
  }

  /** The row loop over the remaining-hours entries, names taken from `names`. */
  function ProfileRows(entries: seq<Entry>, names: map<ProfileId, string>, m: Metrics, num: Hash, days: int)
    : (rows: seq<Row>)
    ensures |rows| == |entries|
    ensures forall i :: 0 <= i < |entries| ==>
              rows[i] == ProfileRow(NameIn(names, entries[i].key), m, num, days, entries[i].key)
  {
    if entries == [] then []
    else
      var rest := ProfileRows(entries[1..], names, m, num, days);
      var rows := [ProfileRow(NameIn(names, entries[0].key), m, num, days, entries[0].key)] + rest;
      assert forall i :: 1 <= i < |rows| ==> rows[i] == rest[i - 1] && entries[i] == entries[1..][i - 1];
      rows
  }

  /** `get_table_data(project, date)` with the name lookup made total: a
      profile missing from the directory, or an empty directory, gives a row
      without a name. */
  function TableData(m: Metrics, profiles: seq<Profile>, num: Hash, date: Date): (rows: seq<Row>)
    ensures |rows| == |m.remainingByProfile| + 1
    ensures forall i :: 0 <= i < |m.remainingByProfile| ==>
              var k := m.remainingByProfile[i].key;
              var c := GetIdealCapacity(m.remainingByProfile[i].value, Fetch(num, k),
                                        DaysRemaining(m.scheduledFinishDate, date));
              && rows[i].title == ProfileName(if profiles == [] then None else NameIn(MergeNames(profiles), k))
              && rows[i].remaining == m.remainingByProfile[i].value
              && rows[i].scheduled == Fetch(m.scheduledByProfile, k)
              && rows[i].incurred == Fetch(m.incurredByProfile, k)
              && rows[i].number == Fetch(num, k)
              && rows[i].idealCapacity == Rate(c.value)
              && rows[i].details == c.Text()
    ensures rows[|rows| - 1] == Row(TotalLabel, Sum(num), Sum(m.scheduledByProfile), Sum(m.incurredByProfile),
                                    Sum(m.remainingByProfile), Dash, [])
  {
    var names := ProfileNames(profiles).GetOr(map[]);
    ProfileRows(m.remainingByProfile, names, m, num, DaysRemaining(m.scheduledFinishDate, date))
    + [TotalRow(m, num)]
  }

  /** `profiles_name[profile]` as written: indexing `nil` raises. */
  function NameAsWritten(names: Option<map<ProfileId, string>>, k: ProfileId)
    : Result<Option<string>, TableError>
  {
    match names
    case None => Failure(UndefinedMethodOnNil)
    case Some(n) => Success(NameIn(n, k))
  }

  /** The row loop as written: the first row whose name lookup raises aborts it. */
  function ProfileRowsAsWritten(entries: seq<Entry>, names: Option<map<ProfileId, string>>, m: Metrics,
                                num: Hash, days: int): Result<seq<Row>, TableError>
  {
    if entries == [] then Success([])
    else
      match NameAsWritten(names, entries[0].key)
      case Failure(e) => Failure(e)
      case Success(name) =>
        match ProfileRowsAsWritten(entries[1..], names, m, num, days)
        case Failure(e) => Failure(e)
        case Success(rest) => Success([ProfileRow(name, m, num, days, entries[0].key)] + rest)
  }

  lemma {:induction false} RowsAsWrittenAgree(entries: seq<Entry>, names: map<ProfileId, string>, m: Metrics,
                                              num: Hash, days: int)
    ensures ProfileRowsAsWritten(entries, Some(names), m, num, days)
            == Success(ProfileRows(entries, names, m, num, days))
  {
    if entries != [] {
      RowsAsWrittenAgree(entries[1..], names, m, num, days);
    }
  }

  /** `get_table_data(project, date)` as written: it raises exactly when the
      profile directory is empty and some profile has remaining effort, and
      otherwise it is the table of `TableData`. */
  function TableDataAsWritten(m: Metrics, profiles: seq<Profile>, num: Hash, date: Date)
    : (r: Result<seq<Row>, TableError>)
    ensures r.Failure? <==> profiles == [] && |m.remainingByProfile| > 0
    ensures r.Failure? ==> r.error == UndefinedMethodOnNil
    ensures r.Success? ==> r.value == TableData(m, profiles, num, date)
  {
    var days := DaysRemaining(m.scheduledFinishDate, date);
    var rows := ProfileRowsAsWritten(m.remainingByProfile, ProfileNames(profiles), m, num, days);
    assert profiles != [] ==> rows == Success(ProfileRows(m.remainingByProfile, MergeNames(profiles), m, num, days)) by {
      if profiles != [] {
        RowsAsWrittenAgree(m.remainingByProfile, MergeNames(profiles), m, num, days);
      }
    }
    TableFromRows(m, num, rows)
  }

  /** The profile rows, if the loop did not raise, followed by the Total row. */
  function TableFromRows(m: Metrics, num: Hash, rows: Result<seq<Row>, TableError>): Result<seq<Row>, TableError> {
    match rows
    case Failure(e) => Failure(e)
    case Success(rows) => Success(rows + [TotalRow(m, num)])
  }

  /** A concrete input on which the table as written raises: an empty
      profile directory and one profile with 5 hours left. */
  lemma EmptyDirectoryRaises()
    ensures TableDataAsWritten(Metrics(5.0, 0.0, [], [], [Entry(1, 5.0)], None), [], [], 0)
            == Failure(UndefinedMethodOnNil)
  {
  }

  // ---------------------------------------------------------------------
  // The Total row

  /** The values of `h` read at the keys of `entries`. */
  function SumAt(entries: seq<Entry>, h: seq<Entry>): real {
    if entries == [] then 0.0 else Fetch(h, entries[0].key) + SumAt(entries[1..], h)
  }

  /** `h` without the entry for `k`. */
  function Without(h: seq<Entry>, k: ProfileId): seq<Entry> {
    if h == [] then []
    else if h[0].key == k then h[1..]
    else [h[0]] + Without(h[1..], k)
  }

  /** Removing the entry for `k` leaves every other key's value as it was. */
  lemma {:induction false} WithoutFetch(h: seq<Entry>, k: ProfileId, j: ProfileId)
    requires j != k
    ensures Fetch(Without(h, k), j) == Fetch(h, j)
  {
    if h != [] && h[0].key != k {
      WithoutFetch(h[1..], k, j);
      assert Without(h, k)[1..] == Without(h[1..], k);
    }
  }

  /** Removing the entry for `k` from a hash removes exactly the key `k`. */
  lemma {:induction false} WithoutKeys(h: seq<Entry>, k: ProfileId)
    requires DistinctKeys(h)
    ensures forall j :: j in Keys(Without(h, k)) <==> j in Keys(h) && j != k
    ensures DistinctKeys(Without(h, k))
  {
    if h != [] {
      assert DistinctKeys(h[1..]);
      assert Keys(h) == [h[0].key] + Keys(h[1..]);
      if h[0].key == k {
        assert k !in Keys(h[1..]);
      } else {
        WithoutKeys(h[1..], k);
        var r := Without(h, k);
        assert r[1..] == Without(h[1..], k);
        assert Keys(r) == [h[0].key] + Keys(r[1..]);
        assert h[0].key !in Keys(r[1..]);
        forall j | 0 < j < |r| ensures r[j].key != r[0].key {
          assert r[j].key == Keys(r[1..])[j - 1];
        }
      }
    }
  }

  /** Removing the entry for `k` takes exactly `k`'s value out of the sum. */
  lemma {:induction false} WithoutSum(h: seq<Entry>, k: ProfileId)
    requires DistinctKeys(h)
    ensures Sum(h) == Fetch(h, k) + Sum(Without(h, k))
  {
    if h != [] {
      assert DistinctKeys(h[1..]);
      if h[0].key == k {
        assert k !in Keys(h[1..]);
      } else {
        WithoutSum(h[1..], k);
        assert Without(h, k)[1..] == Without(h[1..], k);
      }
    }
  }

  lemma {:induction false} SumAtIgnores(entries: seq<Entry>, h: seq<Entry>, k: ProfileId)
    requires DistinctKeys(h)
    requires k !in Keys(entries)
    ensures SumAt(entries, Without(h, k)) == SumAt(entries, h)
  {
    if entries != [] {
      WithoutFetch(h, k, entries[0].key);
      assert Keys(entries) == [entries[0].key] + Keys(entries[1..]);
      SumAtIgnores(entries[1..], h, k);
    }
  }

  /** Reading a hash at every key of a key list that covers it adds up to
      the hash's own sum. */
  lemma {:induction false} SumAtCovering(entries: seq<Entry>, h: seq<Entry>)
    requires DistinctKeys(entries) && DistinctKeys(h)
    requires forall i :: 0 <= i < |h| ==> h[i].key in Keys(entries)
    ensures SumAt(entries, h) == Sum(h)
    decreases |entries|
  {
    if entries != [] {
      var k := entries[0].key;
      WithoutKeys(h, k);
      WithoutSum(h, k);
      var h' := Without(h, k);
      assert k !in Keys(entries[1..]);
      forall i' | 0 <= i' < |h'| ensures h'[i'].key in Keys(entries[1..]) {
        var j := h'[i'].key;
        assert j in Keys(h');
        var i0 :| 0 <= i0 < |h| && h[i0].key == j;
        assert j in Keys(entries) && j != k;
        var i :| 0 <= i < |entries| && Keys(entries)[i] == j;
        assert i > 0;
        assert Keys(entries[1..])[i - 1] == j;
      }
      SumAtCovering(entries[1..], h');
      SumAtIgnores(entries[1..], h, k);
    }
  }

  /** The profile rows' values for one column, added up. */
  function ColumnSum(rows: seq<Row>, column: Row -> real): real {
    if rows == [] then 0.0 else column(rows[0]) + ColumnSum(rows[1..], column)
  }

  lemma {:induction false} ColumnSumOfRows(entries: seq<Entry>, names: map<ProfileId, string>, m: Metrics,
                                           num: Hash, days: int, h: seq<Entry>, column: Row -> real)
    requires forall k :: column(ProfileRow(NameIn(names, k), m, num, days, k)) == Fetch(h, k)
    ensures ColumnSum(ProfileRows(entries, names, m, num, days), column) == SumAt(entries, h)
  {
    if entries != [] {
      var rows := ProfileRows(entries, names, m, num, days);
      assert rows[1..] == ProfileRows(entries[1..], names, m, num, days);
      ColumnSumOfRows(entries[1..], names, m, num, days, h, column);
    }
  }

  /** The Total row's remaining hours are the sum of the profile rows'. */
  lemma TotalRemainingIsRowSum(m: Metrics, profiles: seq<Profile>, num: Hash, date: Date)
    ensures var rows := TableData(m, profiles, num, date);
            rows[|rows| - 1].remaining == ColumnSum(rows[..|rows| - 1], (r: Row) => r.remaining)
  {
    var rows := TableData(m, profiles, num, date);
    var names := ProfileNames(profiles).GetOr(map[]);
    var days := DaysRemaining(m.scheduledFinishDate, date);
    assert rows[..|rows| - 1] == ProfileRows(m.remainingByProfile, names, m, num, days);
    ColumnSumOfRows(m.remainingByProfile, names, m, num, days, m.remainingByProfile, (r: Row) => r.remaining);
    SumAtCovering(m.remainingByProfile, m.remainingByProfile);
  }

  /** The Total row's scheduled hours are the sum of the profile rows' when
      every profile with scheduled hours also has a row. */
  lemma TotalScheduledIsRowSum(m: Metrics, profiles: seq<Profile>, num: Hash, date: Date)
    requires forall k :: k in Keys(m.scheduledByProfile) ==> k in Keys(m.remainingByProfile)
    ensures var rows := TableData(m, profiles, num, date);
            rows[|rows| - 1].scheduled == ColumnSum(rows[..|rows| - 1], (r: Row) => r.scheduled)
  {
    var rows := TableData(m, profiles, num, date);
    var names := ProfileNames(profiles).GetOr(map[]);
    var days := DaysRemaining(m.scheduledFinishDate, date);
    assert rows[..|rows| - 1] == ProfileRows(m.remainingByProfile, names, m, num, days);
    ColumnSumOfRows(m.remainingByProfile, names, m, num, days, m.scheduledByProfile, (r: Row) => r.scheduled);
    SumAtCovering(m.remainingByProfile, m.scheduledByProfile);
  }

  /** The Total row's incurred hours are the sum of the profile rows' when
      every profile with incurred hours also has a row. */
  lemma TotalIncurredIsRowSum(m: Metrics, profiles: seq<Profile>, num: Hash, date: Date)
    requires forall k :: k in Keys(m.incurredByProfile) ==> k in Keys(m.remainingByProfile)
    ensures var rows := TableData(m, profiles, num, date);
            rows[|rows| - 1].incurred == ColumnSum(rows[..|rows| - 1], (r: Row) => r.incurred)
  {
    var rows := TableData(m, profiles, num, date);
    var names := ProfileNames(profiles).GetOr(map[]);
    var days := DaysRemaining(m.scheduledFinishDate, date);
    assert rows[..|rows| - 1] == ProfileRows(m.remainingByProfile, names, m, num, days);
    ColumnSumOfRows(m.remainingByProfile, names, m, num, days, m.incurredByProfile, (r: Row) => r.incurred);
    SumAtCovering(m.remainingByProfile, m.incurredByProfile);
  }

  /** Scheduled hours of a profile without remaining effort count in the
      Total row although that profile has no row. */
  lemma TotalScheduledCountsHiddenProfiles()
    ensures var t := TableDataAsWritten(Metrics(10.0, 0.0, [Entry(1, 4.0), Entry(2, 6.0)], [], [Entry(1, 4.0)], None),
                                        [Profile(1, "Dev")], [], 0);
            && t.Success?
            && var rows := t.value;
            && |rows| == 2
            && rows[0].scheduled == 4.0
            && rows[1].scheduled == 10.0
  {
  }

  // ---------------------------------------------------------------------
  // The header

  /** Profile `k` is flagged: its ideal-capacity advice text is present. */
  predicate Flagged(remaining: Hash, num: Hash, days: int, k: ProfileId) {
    |CapacityOf(remaining, num, days, k).Text()| > 0
  }

  /** The loop `result += 1 if ...[1].present?` over `keys`. */
  function AlertCount(keys: seq<ProfileId>, remaining: Hash, num: Hash, days: int): nat {
    if keys == [] then 0
    else (if Flagged(remaining, num, days, keys[0]) then 1 else 0) + AlertCount(keys[1..], remaining, num, days)
  }

  lemma {:induction false} AlertCountIsCardinality(keys: seq<ProfileId>, remaining: Hash, num: Hash, days: int)
    requires forall i, j :: 0 <= i < j < |keys| ==> keys[i] != keys[j]
    ensures AlertCount(keys, remaining, num, days)
            == |set k | k in keys && Flagged(remaining, num, days, k)|
  {
    if keys != [] {
      AlertCountIsCardinality(keys[1..], remaining, num, days);
      var rest := set k | k in keys[1..] && Flagged(remaining, num, days, k);
      var all := set k | k in keys && Flagged(remaining, num, days, k);
      assert keys[0] !in rest;
      if Flagged(remaining, num, days, keys[0]) {
        assert all == rest + {keys[0]};
      } else {
        assert all == rest;
      }
    }
  }

  /** The header's colour. */
  datatype Status = MetricAlert | MetricSuccess

  /** The header: a status and the number of flagged profiles. */
  datatype Header = Header(status: Status, result: nat)

  /** `get_header(project)`, with today's date and metrics given: the number
      of profiles with remaining effort whose advice is present, and an alert
      status exactly when there is one. */
  function GetHeader(m: Metrics, num: Hash, today: Date): (h: Header)
    ensures h.result == |set k | k in Keys(m.remainingByProfile)
                                 && Flagged(m.remainingByProfile, num, DaysRemaining(m.scheduledFinishDate, today), k)|
    ensures h.status == MetricAlert <==> h.result > 0
  {
    var days := DaysRemaining(m.scheduledFinishDate, today);
    var keys := Keys(m.remainingByProfile);
    AlertCountIsCardinality(keys, m.remainingByProfile, num, days);
    var result := AlertCount(keys, m.remainingByProfile, num, days);
    Header(if result > 0 then MetricAlert else MetricSuccess, result)
  }

  /** The header raises an alert exactly when some profile with remaining
      effort gets ideal-capacity advice. */
  lemma HeaderAlertIffAdvice(m: Metrics, num: Hash, today: Date)
    ensures GetHeader(m, num, today).status == MetricAlert
            <==> exists i :: 0 <= i < |m.remainingByProfile|
                   && |CapacityOf(m.remainingByProfile, num, DaysRemaining(m.scheduledFinishDate, today),
                                  m.remainingByProfile[i].key).advice| > 0
  {
    var days := DaysRemaining(m.scheduledFinishDate, today);
    var keys := Keys(m.remainingByProfile);
    var flagged := set k | k in keys && Flagged(m.remainingByProfile, num, days, k);
    assert GetHeader(m, num, today).result == |flagged|;
    if GetHeader(m, num, today).status == MetricAlert {
      assert |flagged| > 0;
      var k :| k in flagged;
      var i :| 0 <= i < |keys| && keys[i] == k;
      FlaggedIffAdvice(m.remainingByProfile, num, days, k);
      assert |CapacityOf(m.remainingByProfile, num, days, m.remainingByProfile[i].key).advice| > 0;
    }
    if exists i :: 0 <= i < |m.remainingByProfile|
                   && |CapacityOf(m.remainingByProfile, num, days, m.remainingByProfile[i].key).advice| > 0 {
      var i :| 0 <= i < |m.remainingByProfile|
                && |CapacityOf(m.remainingByProfile, num, days, m.remainingByProfile[i].key).advice| > 0;
      FlaggedIffAdvice(m.remainingByProfile, num, days, keys[i]);
      assert keys[i] in flagged;
      assert |flagged| > 0;
    }
  }

  /** A profile is flagged exactly when it gets advice. */
  lemma FlaggedIffAdvice(remaining: Hash, num: Hash, days: int, k: ProfileId)
    ensures Flagged(remaining, num, days, k) <==> |CapacityOf(remaining, num, days, k).advice| > 0
  {
    TextPresentIffAdvice(Fetch(remaining, k), Fetch(num, k), days);
  }

  /** Rows whose advice text is present. */
  function CountAdvised(rows: seq<Row>): nat {
    if rows == [] then 0 else (if |rows[0].details| > 0 then 1 else 0) + CountAdvised(rows[1..])
  }

  lemma {:induction false} AdvisedRows(entries: seq<Entry>, names: map<ProfileId, string>, m: Metrics,
                                       num: Hash, days: int)
    ensures CountAdvised(ProfileRows(entries, names, m, num, days))
            == AlertCount(Keys(entries), m.remainingByProfile, num, days)
  {
    if entries != [] {
      var rows := ProfileRows(entries, names, m, num, days);
      assert rows[1..] == ProfileRows(entries[1..], names, m, num, days);
      assert Keys(entries)[1..] == Keys(entries[1..]);
      AdvisedRows(entries[1..], names, m, num, days);
    }
  }

  lemma {:induction false} CountAdvisedAppend(a: seq<Row>, b: seq<Row>)
    ensures CountAdvised(a + b) == CountAdvised(a) + CountAdvised(b)
  {
    if a == [] {
      assert a + b == b;
    } else {
      assert (a + b)[1..] == a[1..] + b;
      CountAdvisedAppend(a[1..], b);
    }
  }

  /** The header counts exactly the table rows that carry advice, when both
      are computed for the same day from the same figures. */
  lemma HeaderCountsAdvisedRows(m: Metrics, profiles: seq<Profile>, num: Hash, today: Date)
    ensures GetHeader(m, num, today).result == CountAdvised(TableData(m, profiles, num, today))
  {
    var names := ProfileNames(profiles).GetOr(map[]);
    var days := DaysRemaining(m.scheduledFinishDate, today);
    var keys := Keys(m.remainingByProfile);
    AdvisedRows(m.remainingByProfile, names, m, num, days);
    CountAdvisedAppend(ProfileRows(m.remainingByProfile, names, m, num, days), [TotalRow(m, num)]);
    assert CountAdvised([TotalRow(m, num)]) == 0;
    AlertCountIsCardinality(keys, m.remainingByProfile, num, days);
  }

  /** With the headcount of `get_profiles_number`, the Total row's number is
      all the headcount of the hierarchy's last checkpoints, profiles without
      remaining effort included. */
  lemma TotalNumberIsHierarchyHeadcount(m: Metrics, profiles: seq<Profile>, projects: seq<ProjectId>,
                                        lastCheckpoint: Headcount.CheckpointLookup, date: Date)
    ensures var rows := TableData(m, profiles, Headcount.ProfilesNumber(projects, lastCheckpoint, date), date);
            rows[|rows| - 1].number == Headcount.HierarchyTotal(projects, lastCheckpoint, date)
  {
  }
}
