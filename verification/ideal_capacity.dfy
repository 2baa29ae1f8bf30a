/** The ideal-capacity rule: from the effort still to be done for one
    workforce profile, the headcount of that profile and the days left to the
    scheduled end, it derives the hours each person would have to work per
    day, or a sentinel, together with advice on how to fix the plan. */
module IdealCapacity {

  import opened Advice

  /** WORKDAY_HOURS: the hours of one working day. */
  const WorkdayHours: real := 8.0

  /** "add profiles or decrease scheduled time or delay project end date". */
  const ThreeOptions: Fragment := [AddProfiles, DecreaseScheduledTime, DelayProjectEndDate]

  /** "add profiles or decrease scheduled time". */
  const StaffOptions: Fragment := [AddProfiles, DecreaseScheduledTime]

  /** "increase scheduled time". */
  const MoreTime: Fragment := [IncreaseScheduledTime]

  /** "delay project end date". */
  const LaterEnd: Fragment := [DelayProjectEndDate]

  /** An ideal-capacity figure with its advice. `value` is hours per person
      per day, except for the sentinels 0 (nothing left to do) and -1 (the
      plan cannot be met as it stands). */
  datatype Capacity = Capacity(value: real, advice: seq<Fragment>) {

    /** The advice as the text the table shows. */
    function Text(): seq<Word> {
      Render(advice)
    }
  }

  /** The remaining effort can be spread over people and days. */
  predicate Staffed(profiles: real, days: int) {
    profiles > 0.0 && days > 0
  }

  /** `get_ideal_capacity(effort, profiles, days)`. */
  function GetIdealCapacity(effort: real, profiles: real, days: int): (c: Capacity)
    ensures effort == 0.0 ==> c.value == 0.0 && c.advice == []
    ensures effort < 0.0 ==> c.value == -1.0 && c.advice == [MoreTime]
    ensures effort > 0.0 && Staffed(profiles, days) ==>
      && c.value > 0.0
      && c.value * (profiles * days as real) == effort
      && (c.value > WorkdayHours ==> c.advice == [ThreeOptions])
      && (c.value <= WorkdayHours ==> c.advice == [])
    ensures effort > 0.0 && !Staffed(profiles, days) ==>
      && c.value == -1.0
      && |c.advice| == (if days <= 0 then 1 else 0) + (if profiles <= 0.0 then 1 else 0)
      && (days <= 0 ==> c.advice[0] == LaterEnd)
      && (profiles <= 0.0 ==> c.advice[|c.advice| - 1] == StaffOptions)
    ensures forall i :: 0 <= i < |c.advice| ==> |c.advice[i]| > 0
  {
    if effort == 0.0 then
      Capacity(0.0, [])
    else if effort < 0.0 then
      Capacity(-1.0, [MoreTime])
    else if Staffed(profiles, days) then
      var rate := effort / (profiles * days as real);
      Capacity(rate, if rate > WorkdayHours then [ThreeOptions] else [])
    else
      Capacity(-1.0,
               (if days <= 0 then [LaterEnd] else [])
               + (if profiles <= 0.0 then [StaffOptions] else []))
  }

  /** With people and days available, the daily rate exceeds a workday
      exactly when the effort exceeds a workday for everyone on every day. */
  lemma RateExceedsWorkday(effort: real, profiles: real, days: int)
    requires effort > 0.0 && Staffed(profiles, days)
    ensures GetIdealCapacity(effort, profiles, days).value > WorkdayHours
            <==> effort > WorkdayHours * profiles * days as real
  {
  }

  /** Advice is given exactly when the plan has a problem: effort is
      over-scheduled, nobody or no day is left for it, or it needs more than
      a workday per person per day. */
  lemma AdviceIffProblem(effort: real, profiles: real, days: int)
    ensures |GetIdealCapacity(effort, profiles, days).advice| > 0
            <==> (effort < 0.0
                  || (effort > 0.0 && (!Staffed(profiles, days)
                                       || effort > WorkdayHours * profiles * days as real)))
  {
  }

  /** The value -1 is reserved for plans that cannot be met: it never comes
      out as a genuine rate. */
  lemma SentinelIffInfeasible(effort: real, profiles: real, days: int)
    ensures GetIdealCapacity(effort, profiles, days).value == -1.0
            <==> (effort < 0.0 || (effort > 0.0 && !Staffed(profiles, days)))
  {
  }

  /** Without advice the figure is a rate that fits in one workday. */
  lemma SilentMeansFeasible(effort: real, profiles: real, days: int)
    requires GetIdealCapacity(effort, profiles, days).advice == []
    ensures 0.0 <= GetIdealCapacity(effort, profiles, days).value <= WorkdayHours
  {
  }

  /** `details.present?`: the rendered advice is non-empty exactly when
      some advice fragment was produced. */
  lemma TextPresentIffAdvice(effort: real, profiles: real, days: int)
    ensures |GetIdealCapacity(effort, profiles, days).Text()| > 0
            <==> |GetIdealCapacity(effort, profiles, days).advice| > 0
  {
  }

  /** 100 hours for 2 people over 5 days needs 10 hours a day: too many. */
  lemma ExampleOverloaded()
    ensures GetIdealCapacity(100.0, 2.0, 5) == Capacity(10.0, [ThreeOptions])
  {
  }

  /** 10 hours for 2 people over 5 days needs 1 hour a day: fine. */
  lemma ExampleComfortable()
    ensures GetIdealCapacity(10.0, 2.0, 5) == Capacity(1.0, [])
  {
  }

  /** Work left with nobody and no day to do it: both fixes, joined by "and". */
  lemma ExampleNoPeopleNoTime()
    ensures GetIdealCapacity(10.0, 0.0, 0).value == -1.0
    ensures GetIdealCapacity(10.0, 0.0, 0).Text()
            == [Say(DelayProjectEndDate), AndWord, Say(AddProfiles), OrWord, Say(DecreaseScheduledTime)]
  {
    var c := GetIdealCapacity(10.0, 0.0, 0);
    assert c.advice == [LaterEnd, StaffOptions];
    assert FragmentText(LaterEnd) == [Say(DelayProjectEndDate)];
    var staff := [[Say(AddProfiles)], [Say(DecreaseScheduledTime)]];
    assert seq(2, i requires 0 <= i < 2 => [Say(StaffOptions[i])]) == staff;
    assert Join(staff[1..], OrWord) == [Say(DecreaseScheduledTime)];
    assert FragmentText(StaffOptions) == [Say(AddProfiles), OrWord, Say(DecreaseScheduledTime)];
    var parts := [FragmentText(LaterEnd), FragmentText(StaffOptions)];
    assert seq(2, i requires 0 <= i < 2 => FragmentText(c.advice[i])) == parts;
    assert Join(parts[1..], AndWord) == FragmentText(StaffOptions);
  }
}
