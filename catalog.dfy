/**
 * Read-only views of the course and session tables: selection by program,
 * by course id and by a list of course ids, and the listing of programs.
 */
module Catalog {
  import opened Sequences
  import opened Ordering
  import opened Tables

  /** The program name that stands for "no filtering". */
  const AllPrograms: string := "All"

  function ProgramIs(program: string): Course -> bool
  {
    (c: Course) => c.program == program
  }

  function CourseIdIn(ids: seq<string>): Course -> bool
  {
    (c: Course) => c.courseId in ids
  }

  function SessionOf(courseId: string): Session -> bool
  {
    (s: Session) => s.courseId == courseId
  }

  function SessionIn(ids: seq<string>): Session -> bool
  {
    (s: Session) => s.courseId in ids
  }

  /** The courses whose program is `program`, in table order. */
  function ByProgram(courses: seq<Course>, program: string): (r: seq<Course>)
    ensures forall c :: c in r <==> c in courses && c.program == program
    ensures forall c :: multiset(r)[c] == if c.program == program then multiset(courses)[c] else 0
    ensures IsSubsequence(r, courses)
  {
    FilterMember(courses, ProgramIs(program));
    FilterCount(courses, ProgramIs(program));
    FilterSubsequence(courses, ProgramIs(program));
    Filter(courses, ProgramIs(program))
  }

  /** The courses whose id is among `ids`, in table order (each row at most once). */
  function CoursesIn(courses: seq<Course>, ids: seq<string>): (r: seq<Course>)
    ensures forall c :: c in r <==> c in courses && c.courseId in ids
    ensures forall c :: multiset(r)[c] == if c.courseId in ids then multiset(courses)[c] else 0
    ensures IsSubsequence(r, courses)
  {
    FilterMember(courses, CourseIdIn(ids));
    FilterCount(courses, CourseIdIn(ids));
    FilterSubsequence(courses, CourseIdIn(ids));
    Filter(courses, CourseIdIn(ids))
  }

  /** The sessions of course `courseId`, in table order. */
  function SessionsOf(sessions: seq<Session>, courseId: string): (r: seq<Session>)
  {
    Filter(sessions, SessionOf(courseId))
  }

  /** Exactly the sessions of the course, each as often as in the table, in table order. */
  lemma SessionsOfSpec(sessions: seq<Session>, courseId: string)
    ensures forall s :: s in SessionsOf(sessions, courseId) <==> s in sessions && s.courseId == courseId
    ensures forall s :: multiset(SessionsOf(sessions, courseId))[s] ==
                        if s.courseId == courseId then multiset(sessions)[s] else 0
    ensures IsSubsequence(SessionsOf(sessions, courseId), sessions)
  {
    FilterMember(sessions, SessionOf(courseId));
    FilterCount(sessions, SessionOf(courseId));
    FilterSubsequence(sessions, SessionOf(courseId));
  }

  /** The sessions whose course id is among `ids`, in table order (each row at most once). */
  function SessionsIn(sessions: seq<Session>, ids: seq<string>): (r: seq<Session>)
    ensures forall s :: s in r <==> s in sessions && s.courseId in ids
    ensures forall s :: multiset(r)[s] == if s.courseId in ids then multiset(sessions)[s] else 0
    ensures IsSubsequence(r, sessions)
  {
    FilterMember(sessions, SessionIn(ids));
    FilterCount(sessions, SessionIn(ids));
    FilterSubsequence(sessions, SessionIn(ids));
    Filter(sessions, SessionIn(ids))
  }

  /** The distinct program names of `courses`, ascending. */
  function ProgramList(courses: seq<Course>): (r: seq<string>)
    ensures StrictlyAscending(r)
    ensures forall p :: p in r <==> exists c :: c in courses && c.program == p
  {
    if courses == [] then []
    else
      InitLast(courses);
      Insert(ProgramList(Init(courses)), Last(courses).program)
  }

  /**
   * The listing is the only ascending, duplicate-free listing of the program
   * names, so it is what sorting the distinct names gives.
   */
  lemma ProgramListUnique(courses: seq<Course>, listing: seq<string>)
    requires StrictlyAscending(listing)
    requires forall p :: p in listing <==> exists c :: c in courses && c.program == p
    ensures listing == ProgramList(courses)
  {
    AscendingUnique(listing, ProgramList(courses));
  }
}
