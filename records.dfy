/** The logical-day rule of app.py and the log entry record it stores. */
module Records {
  import opened Wrappers
  import opened Calendar

  /** The clock readings `get_logical_date` can handle: Python raises
      OverflowError for a time before 06:00 on 0001-01-01, the one day
      that has no day before it. */
  predicate HasLogicalDate(t: DateTime) {
    ValidDateTime(t) && !(t.date == FirstDate && t.hour < 6)
  }

  /** `get_logical_date`: a time before 06:00 belongs to the previous
      calendar day, any later time to its own. */
  function LogicalDate(t: DateTime): (d: Date)
    requires HasLogicalDate(t)
    ensures ValidDate(d)
    ensures t.hour < 6 ==> Ordinal(d) == Ordinal(t.date) - 1
    ensures t.hour >= 6 ==> d == t.date
  {
    if t.hour < 6 then
      PreviousDayOrdinal(t.date);
      PreviousDay(t.date)
    else t.date
  }

  /** The day boundary at work: 03:00 on 30 January belongs to the 29th,
      05:59:59 still to the day before, 06:00 to its own day, and the early
      hours of 1 March and of New Year's Day to the last day before them. */
  lemma LogicalDateExamples()
    ensures LogicalDate(DateTime(Date(2024, 1, 30), 3, 0, 0, 0)) == Date(2024, 1, 29)
    ensures LogicalDate(DateTime(Date(2024, 1, 30), 5, 59, 59, 999999)) == Date(2024, 1, 29)
    ensures LogicalDate(DateTime(Date(2024, 1, 30), 6, 0, 0, 0)) == Date(2024, 1, 30)
    ensures LogicalDate(DateTime(Date(2024, 3, 1), 0, 30, 0, 0)) == Date(2024, 2, 29)
    ensures LogicalDate(DateTime(Date(2023, 3, 1), 0, 30, 0, 0)) == Date(2023, 2, 28)
    ensures LogicalDate(DateTime(Date(2025, 1, 1), 1, 0, 0, 0)) == Date(2024, 12, 31)
  {
  }

  /** The logical day is never after the calendar day and at most one
      day before it. */
  lemma LogicalDateBounds(t: DateTime)
    requires HasLogicalDate(t)
    ensures !Before(t.date, LogicalDate(t))
    ensures Ordinal(t.date) - 1 <= Ordinal(LogicalDate(t)) <= Ordinal(t.date)
    ensures LogicalDate(t) == t.date <==> t.hour >= 6
  {
    BeforeIffOrdinalLess(t.date, LogicalDate(t));
  }

  /** A row of the `Expenses` table. `owner` is the nullable `user_id`
      column. Every writer in app.py sets `archive_date`, so it is never
      NULL here. */
  datatype Entry = Entry(
    id: int,
    desc: string,
    startTime: string,
    endTime: string,
    timestamp: DateTime,
    isArchived: bool,
    archiveDate: Date,
    owner: Option<int>)

  predicate WellFormed(e: Entry) {
    HasLogicalDate(e.timestamp) && ValidDate(e.archiveDate)
  }

  /** The entry belongs to the user and is still on the front page. */
  predicate ActiveFor(e: Entry, uid: int) {
    e.owner == Some(uid) && !e.isArchived
  }

  /** The entry belongs to the user and is in history. */
  predicate ArchivedFor(e: Entry, uid: int) {
    e.owner == Some(uid) && e.isArchived
  }
}
