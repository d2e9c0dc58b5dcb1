/**
 * The two tables the scheduler is built from: course records and session
 * records, with every field kept as the text the table holds.
 */
module Tables {
  import opened Options
  import opened Clock
  import opened Calendar

  /** A row of the course table. */
  datatype Course = Course(
    courseId: string,
    courseName: string,
    instructor: string,
    location: string,
    program: string)

  /** A row of the session table: one meeting of a course. */
  datatype Session = Session(
    courseId: string,
    date: string,
    startTime: string,
    endTime: string)

  /** Both times name a minute of the day. */
  predicate Timed(s: Session)
  {
    ParseClock(s.startTime).Some? && ParseClock(s.endTime).Some?
  }

  predicate AllTimed(ss: seq<Session>)
  {
    forall s <- ss :: Timed(s)
  }

  /** The date names a real day and both times name a minute of the day. */
  predicate WellFormed(s: Session)
  {
    ParseDate(s.date).Some? && Timed(s)
  }

  predicate AllWellFormed(ss: seq<Session>)
  {
    forall s <- ss :: WellFormed(s)
  }

  lemma WellFormedTimed(ss: seq<Session>)
    requires AllWellFormed(ss)
    ensures AllTimed(ss)
  {
  }

  function StartMinute(s: Session): nat
    requires Timed(s)
  {
    ParseClock(s.startTime).value
  }

  function EndMinute(s: Session): nat
    requires Timed(s)
  {
    ParseClock(s.endTime).value
  }

  function SessionDate(s: Session): (d: Date)
    requires WellFormed(s)
    ensures ValidDate(d)
  {
    ParseDate(s.date).value
  }
}
