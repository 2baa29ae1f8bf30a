/** The figures the metrics service reports for a project at a date; the
    effort code reads them and never computes them itself. */
module EffortMetrics {

  import opened Base
  import opened RubyHash

  /** `BSC::Metrics.new(project, date)`, as far as the effort code reads it. */
  datatype Metrics = Metrics(
    hoursScheduled: real,             // hhrr_hours_scheduled
    hoursIncurred: real,              // hhrr_hours_incurred
    scheduledByProfile: Hash,         // hhrr_hours_scheduled_by_profile
    incurredByProfile: Hash,          // hhrr_hours_incurred_by_profile
    remainingByProfile: Hash,         // hhrr_hours_remaining_by_profile
    scheduledFinishDate: Option<Date> // scheduled_finish_date
  )

  /** `(scheduled_finish_date - date).to_i` when a finish date is present,
      otherwise 0. */
  function DaysRemaining(finish: Option<Date>, date: Date): (days: int)
    ensures finish.Some? ==> date + days == finish.value
    ensures finish.None? ==> days == 0
  {
    match finish
    case Some(f) => f - date
    case None => 0
  }
}
