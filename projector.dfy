/**
 * Calendar projection: one display record per selected session, joined with
 * the record of its course and annotated with the weekday of its date.
 */
module Projector {
  import opened Options
  import opened Sequences
  import opened Calendar
  import opened Tables
  import opened Catalog

  /** A display-ready calendar entry; every field is text. */
  datatype Event = Event(
    id: string,
    title: string,
    instructor: string,
    location: string,
    startTime: string,
    endTime: string,
    date: string,
    program: string,
    day: string)

  /** The first course record with id `courseId`, if any. */
  function FirstWithId(courses: seq<Course>, courseId: string): (r: Option<Course>)
    ensures r.None? <==> forall c <- courses :: c.courseId != courseId
    ensures r.Some? ==> r.value in courses && r.value.courseId == courseId
  {
    if courses == [] then None
    else if courses[0].courseId == courseId then Some(courses[0])
    else
      assert forall c <- courses :: c == courses[0] || c in courses[1..];
      FirstWithId(courses[1..], courseId)
  }

  /** The record found is the one at the first position whose id matches. */
  lemma {:induction false} FirstWithIdIsFirst(courses: seq<Course>, courseId: string, k: nat)
    requires k < |courses| && courses[k].courseId == courseId
    requires forall m :: 0 <= m < k ==> courses[m].courseId != courseId
    ensures FirstWithId(courses, courseId) == Some(courses[k])
  {
    if k > 0 {
      assert courses[0].courseId != courseId;
      FirstWithIdIsFirst(courses[1..], courseId, k - 1);
    }
  }

  /**
   * Filtering the table by a condition that every row with the id meets
   * does not change which row is found first for that id.
   */
  lemma {:induction false} FirstWithIdFilter(courses: seq<Course>, keep: Course -> bool, courseId: string)
    requires forall c: Course :: c.courseId == courseId ==> keep(c)
    ensures FirstWithId(Filter(courses, keep), courseId) == FirstWithId(courses, courseId)
  {
    if courses != [] {
      FirstWithIdFilter(courses[1..], keep, courseId);
      var rest := Filter(courses[1..], keep);
      if keep(courses[0]) {
        assert Filter(courses, keep) == [courses[0]] + rest;
        assert ([courses[0]] + rest)[1..] == rest;
      } else {
        assert Filter(courses, keep) == rest;
      }
    }
  }

  /**
   * Looking a course up among the selected courses finds the same record as
   * looking it up in the whole table, when its id is selected.
   */
  lemma FirstWithIdSelected(courses: seq<Course>, ids: seq<string>, courseId: string)
    requires courseId in ids
    ensures FirstWithId(CoursesIn(courses, ids), courseId) == FirstWithId(courses, courseId)
  {
    FirstWithIdFilter(courses, CourseIdIn(ids), courseId);
  }

  /** The event for session `s` of course `c`. */
  function MakeEvent(c: Course, s: Session): Event
    requires WellFormed(s)
  {
    Event(c.courseId, c.courseId + ": " + c.courseName, c.instructor, c.location,
          s.startTime, s.endTime, s.date, c.program, WeekdayName(SessionDate(s)))
  }

  /** Every session is well formed and has a course record among `courses`. */
  predicate Joinable(courses: seq<Course>, ss: seq<Session>)
  {
    forall s <- ss :: WellFormed(s) && FirstWithId(courses, s.courseId).Some?
  }

  /** The events of `ss`, in the order of `ss`. */
  function EventsOf(courses: seq<Course>, ss: seq<Session>): (r: seq<Event>)
    requires Joinable(courses, ss)
    ensures |r| == |ss|
  {
    if ss == [] then []
    else
      var s := Last(ss);
      EventsOf(courses, Init(ss)) + [MakeEvent(FirstWithId(courses, s.courseId).value, s)]
  }

  lemma {:induction false} EventsOfAt(courses: seq<Course>, ss: seq<Session>, k: nat)
    requires Joinable(courses, ss) && k < |ss|
    ensures EventsOf(courses, ss)[k] == MakeEvent(FirstWithId(courses, ss[k].courseId).value, ss[k])
  {
    if k < |ss| - 1 {
      EventsOfAt(courses, Init(ss), k);
    }
  }

  lemma EventsOfStep(courses: seq<Course>, ss: seq<Session>, k: nat)
    requires Joinable(courses, ss) && k < |ss|
    ensures EventsOf(courses, ss[..k + 1]) ==
      EventsOf(courses, ss[..k]) + [MakeEvent(FirstWithId(courses, ss[k].courseId).value, ss[k])]
  {
    assert Init(ss[..k + 1]) == ss[..k];
  }

  /** Every session of a selected course has a course record. */
  predicate HasCourses(courses: seq<Course>, sessions: seq<Session>, ids: seq<string>)
  {
    forall s <- sessions :: s.courseId in ids ==> exists c <- courses :: c.courseId == s.courseId
  }

  lemma SelectionJoinable(courses: seq<Course>, sessions: seq<Session>, ids: seq<string>)
    requires AllWellFormed(sessions) && HasCourses(courses, sessions, ids)
    ensures Joinable(CoursesIn(courses, ids), SessionsIn(sessions, ids))
  {
    forall s <- SessionsIn(sessions, ids)
      ensures FirstWithId(CoursesIn(courses, ids), s.courseId).Some?
    {
      var c :| c in courses && c.courseId == s.courseId;
      assert c in CoursesIn(courses, ids);
    }
  }

  /** The events for the selection `ids`. */
  function CalendarEvents(courses: seq<Course>, sessions: seq<Session>, ids: seq<string>): seq<Event>
    requires AllWellFormed(sessions) && HasCourses(courses, sessions, ids)
  {
    SelectionJoinable(courses, sessions, ids);
    EventsOf(CoursesIn(courses, ids), SessionsIn(sessions, ids))
  }

  /**
   * One event per session whose course is selected, in table order: the
   * event takes id, title, instructor, location and program from the course
   * record, copies date, start and end from the session, and names the
   * weekday of the session's date.
   */
  lemma CalendarEventsSpec(courses: seq<Course>, sessions: seq<Session>, ids: seq<string>)
    requires AllWellFormed(sessions) && HasCourses(courses, sessions, ids)
    ensures |CalendarEvents(courses, sessions, ids)| == |SessionsIn(sessions, ids)|
    ensures forall k :: 0 <= k < |SessionsIn(sessions, ids)| ==>
      var s, e := SessionsIn(sessions, ids)[k], CalendarEvents(courses, sessions, ids)[k];
      var c := FirstWithId(courses, s.courseId).value;
      && FirstWithId(courses, s.courseId).Some?
      && e.id == s.courseId
      && e.title == s.courseId + ": " + c.courseName
      && e.instructor == c.instructor && e.location == c.location && e.program == c.program
      && e.date == s.date && e.startTime == s.startTime && e.endTime == s.endTime
      && e.day == WeekdayName(SessionDate(s))
  {
    var sel, selCourses := SessionsIn(sessions, ids), CoursesIn(courses, ids);
    SelectionJoinable(courses, sessions, ids);
    forall k | 0 <= k < |sel|
      ensures FirstWithId(courses, sel[k].courseId).Some?
      ensures CalendarEvents(courses, sessions, ids)[k] ==
        MakeEvent(FirstWithId(courses, sel[k].courseId).value, sel[k])
    {
      assert sel[k] in sel;
      FirstWithIdSelected(courses, ids, sel[k].courseId);
      EventsOfAt(selCourses, sel, k);
    }
  }
}
