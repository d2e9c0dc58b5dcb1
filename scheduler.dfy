/**
 * The scheduler object: it holds the course table and the session table,
 * offers the catalog views, detects conflicts between selected courses and
 * projects a selection onto calendar events. Both tables are fixed once the
 * object is built.
 */
module Scheduler {
  import opened Options
  import opened Sequences
  import opened Ordering
  import opened Clock
  import opened Tables
  import opened Catalog
  import opened Overlaps
  import opened Projector

  class CourseScheduler {
    const courses: seq<Course>
    const sessions: seq<Session>

    /** Every session row has a real date and two readable times. */
    predicate Valid()
    {
      AllWellFormed(sessions)
    }

    /** Builds a scheduler over already-read tables whose session rows are all well formed. */
    constructor (courses: seq<Course>, sessions: seq<Session>)
      requires AllWellFormed(sessions)
      ensures this.courses == courses && this.sessions == sessions
      ensures Valid()
    {
      this.courses := courses;
      this.sessions := sessions;
    }

    /** Every course record, in table order. */
    function AllCourses(): (r: seq<Course>)
      ensures r == courses
    {
      courses
    }

    /**
     * "All" gives every course; any other name gives exactly the courses of
     * that program, each as often as in the table, in table order.
     */
    function CoursesByProgram(program: string): (r: seq<Course>)
      ensures program == AllPrograms ==> r == courses
      ensures program != AllPrograms ==> forall c :: c in r <==> c in courses && c.program == program
      ensures program != AllPrograms ==>
        forall c :: multiset(r)[c] == if c.program == program then multiset(courses)[c] else 0
      ensures program != AllPrograms ==> IsSubsequence(r, courses)
    {
      if program == AllPrograms then AllCourses() else ByProgram(courses, program)
    }

    /** The distinct program names, strictly ascending. */
    function Programs(): (r: seq<string>)
      ensures StrictlyAscending(r)
      ensures forall p :: p in r <==> exists c :: c in courses && c.program == p
    {
      ProgramList(courses)
    }

    /** The session rows of course `courseId`, in table order. */
    function SessionsFor(courseId: string): (r: seq<Session>)
      requires AllTimed(sessions)
      ensures AllTimed(r)
      ensures forall s :: s in r <==> s in sessions && s.courseId == courseId
    {
      SessionsOfSpec(sessions, courseId);
      SessionsOf(sessions, courseId)
    }

    /**
     * Compares every session of one course with every session of another:
     * the verdict lists every clashing pair, row by row, and says "no
     * conflict" exactly when no pair clashes.
     */
    method SessionsOverlap(sessions1: seq<Session>, sessions2: seq<Session>) returns (r: Verdict)
      requires AllTimed(sessions1) && AllTimed(sessions2)
      ensures r == VerdictOf(Grid(sessions1, sessions2))
      ensures r.Conflicts? ==> 0 < |r.list| <= |sessions1| * |sessions2|
      ensures r.NoConflict? <==>
        forall i, j :: 0 <= i < |sessions1| && 0 <= j < |sessions2| ==> !Clash(sessions1[i], sessions2[j])
    {
      var conflicts: seq<Conflict> := [];
      var i := 0;
      while i < |sessions1|
        invariant 0 <= i <= |sessions1|
        invariant conflicts == Grid(sessions1[..i], sessions2)
      {
        var session1 := sessions1[i];
        assert session1 in sessions1;
        var j := 0;
        while j < |sessions2|
          invariant 0 <= j <= |sessions2|
          invariant conflicts == Grid(sessions1[..i], sessions2) + Row(session1, sessions2[..j])
        {
          var session2 := sessions2[j];
          assert session2 in sessions2;
          if session1.date == session2.date {
            var start1 := ParseClock(session1.startTime).value;
            var end1 := ParseClock(session1.endTime).value;
            var start2 := ParseClock(session2.startTime).value;
            var end2 := ParseClock(session2.endTime).value;
            if start1 < end2 && start2 < end1 {
              conflicts := conflicts + [Conflict(session1.date,
                                                 SessionTimes(session1.startTime, session1.endTime),
                                                 SessionTimes(session2.startTime, session2.endTime))];
            }
          }
          RowStep(session1, sessions2, j);
          j := j + 1;
        }
        assert sessions2[..j] == sessions2;
        GridStep(sessions1, sessions2, i);
        i := i + 1;
      }
      assert sessions1[..i] == sessions1;
      r := if conflicts == [] then NoConflict else Conflicts(conflicts);
      GridEmpty(sessions1, sessions2);
      GridSize(sessions1, sessions2);
    }

    /**
     * Compares every pair of selected courses i < j, in increasing (i, j)
     * order, and lists one overlap entry for each pair that has conflicts.
     */
    method FindOverlappingCourses(selected: seq<Course>) returns (overlaps: seq<Overlap>)
      requires AllTimed(sessions)
      ensures overlaps == Report(selected, sessions)
    {
      var n := |selected|;
      overlaps := [];
      var i := 0;
      while i < n
        invariant 0 <= i <= n
        invariant overlaps == Scanned(selected, PairTable(selected, sessions), i, i + 1)
      {
        var course1 := selected[i];
        var sessions1 := SessionsFor(course1.courseId);
        var j := i + 1;
        while j < n
          invariant i + 1 <= j <= n
          invariant overlaps == Scanned(selected, PairTable(selected, sessions), i, j)
        {
          var course2 := selected[j];
          var sessions2 := SessionsFor(course2.courseId);
          var details := SessionsOverlap(sessions1, sessions2);
          ScanStep(selected, sessions, i, j, details);
          if details.Conflicts? {
            overlaps := overlaps + [Overlap(course1, course2, TimeOverlap, details.list)];
          }
          j := j + 1;
        }
        i := i + 1;
      }
    }

    /**
     * One event per session whose course id is selected, in session-table
     * order, joined with the first course record of that id.
     */
    method GetCalendarEvents(ids: seq<string>) returns (events: seq<Event>)
      requires Valid() && HasCourses(courses, sessions, ids)
      ensures events == CalendarEvents(courses, sessions, ids)
    {
      var selectedCourses := CoursesIn(courses, ids);
      var selectedSessions := SessionsIn(sessions, ids);
      SelectionJoinable(courses, sessions, ids);
      events := [];
      for k := 0 to |selectedSessions|
        invariant events == EventsOf(selectedCourses, selectedSessions[..k])
      {
        var session := selectedSessions[k];
        assert session in selectedSessions;
        var course := FirstWithId(selectedCourses, session.courseId).value;
        EventsOfStep(selectedCourses, selectedSessions, k);
        events := events + [MakeEvent(course, session)];
      }
      assert selectedSessions[..|selectedSessions|] == selectedSessions;
    }
  }

  /**
   * Listing "All" gives the same courses as listing each program of the
   * program list in turn.
   */
  lemma ProgramsCoverCourses(scheduler: CourseScheduler, c: Course)
    ensures c in scheduler.CoursesByProgram(AllPrograms) <==>
      exists p :: p in scheduler.Programs() && c in scheduler.CoursesByProgram(p)
  {
    if c in scheduler.CoursesByProgram(AllPrograms) {
      assert c.program in scheduler.Programs();
      assert c in scheduler.CoursesByProgram(c.program);
    }
  }

  /**
   * Builds a scheduler from already-read tables; fails exactly when some
   * session row has a date or a time that cannot be read.
   */
  method Load(courses: seq<Course>, sessions: seq<Session>) returns (r: Option<CourseScheduler>)
    ensures r.None? <==> !AllWellFormed(sessions)
    ensures r.Some? ==> fresh(r.value) && r.value.Valid()
    ensures r.Some? ==> r.value.courses == courses && r.value.sessions == sessions
  {
    if AllWellFormed(sessions) {
      var scheduler := new CourseScheduler(courses, sessions);
      r := Some(scheduler);
    } else {
      r := None;
    }
  }

  /**
   * The calendar request: the events of the requested ids and, when more than
   * one id is requested, the overlaps among the requested courses in table order.
   */
  method CalendarRequest(scheduler: CourseScheduler, ids: seq<string>) returns (events: seq<Event>, overlaps: seq<Overlap>)
    requires scheduler.Valid() && HasCourses(scheduler.courses, scheduler.sessions, ids)
    ensures events == CalendarEvents(scheduler.courses, scheduler.sessions, ids)
    ensures |ids| > 1 ==> overlaps == Report(CoursesIn(scheduler.courses, ids), scheduler.sessions)
    ensures |ids| <= 1 ==> overlaps == []
  {
    events := scheduler.GetCalendarEvents(ids);
    overlaps := [];
    if |ids| > 1 {
      WellFormedTimed(scheduler.sessions);
      var selected := CoursesIn(scheduler.courses, ids);
      overlaps := scheduler.FindOverlappingCourses(selected);
    }
  }
}
