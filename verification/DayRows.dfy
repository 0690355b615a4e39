/** One attendance row: what the writers that share a person's day read and write. */
module DayRows {
  import opened Wrappers

  datatype Status = Present | Late | Absent | OnLeave

  /** Clock times are seconds since midnight; notes and source are nullable text. */
  datatype Row = Row(
    status: Status,
    source: Option<string>,
    notes: Option<string>,
    checkIn: Option<nat>,
    checkOut: Option<nat>)

  const AUTO_ABSENCE_SOURCE: string := "auto_absence"

  /** An automatic absence whose status is final for that day (employees). */
  predicate IsFinalAutoAbsence(r: Row) {
    r.status == Absent && r.source == Some(AUTO_ABSENCE_SOURCE)
  }
}
