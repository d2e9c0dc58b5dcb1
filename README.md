# Course scheduler: conflict detection and calendar projection

This project models the `CourseScheduler` object of a small course-calendar
service. The scheduler holds two tables:

- a course table, one row per course, with id, name, instructor, location
  and program;
- a session table, one row per meeting, with course id, date, start time and
  end time.

It offers three groups of operations:

- **Catalog views.** List every course, list the courses of one program
  (the name "All" means every course), and list the distinct program names in
  ascending order.
- **Overlap detection.** For a selection of courses, compare every pair of
  positions i < j in increasing (i, j) order. For each pair, compare every
  session of the first course with every session of the second. Two sessions
  clash when their date texts are equal and their time ranges overlap
  strictly (`start1 < end2` and `start2 < end1`), so sessions that only touch
  do not clash. Each pair with at least one clash yields one overlap entry
  carrying the full list of clashes.
- **Calendar projection.** One event per session of a selected course, in
  session-table order. Each event joins the session with the first course
  record of its id and adds the English weekday name of its date.

The model has the same shape as the source:

- The scheduler is a class whose two tables are fixed at construction. The
  catalog views are functions.
- The three scanning operations are methods with the source's loops.
  Each is proved equal to a specification function: `Grid` (all clashing
  session pairs, row by row), `Report` (the entries of the course pairs, in
  scan order) and `CalendarEvents`.
- The lemmas beside each specification function state what the source
  promises about it.

Times and dates stay the text of the table. Times are compared as the minute
of the day they denote ("H:MM" or "HH:MM", 24-hour clock). Dates denote a day
of the proleptic Gregorian calendar ("YYYY-MM-DD"). The weekday is computed by
counting days from 0001-01-01, a Monday.

Modules:

- `Options`, `Sequences`, `Ordering`: general helpers.
- `Tables`: the row types.
- `Clock`: times of day.
- `Calendar`: dates and weekdays.
- `Catalog`: table views.
- `Overlaps`: session and course conflicts.
- `Projector`: calendar events.
- `Scheduler`: the class, the loader and the calendar request.
- `Scenarios`: worked examples.

The model follows the code in these points:

- The course listing keeps table order. There is no sort by earliest session.
- There is no fallback program list for an empty table.
- A row whose date or time cannot be read makes construction fail. The row is
  not skipped.
- A selected session without a course record is not skipped. The code fails
  there, so the model makes it a precondition.

## Model

| member | source | states |
|---|---|---|
| Scheduler.CourseScheduler.constructor | app.py:11-15 | keeps both tables as given; the scheduler is valid (every session row readable) |
| Scheduler.Load | app.py:24-30 | construction fails exactly when some session row has an unreadable date or time; otherwise the new scheduler holds the given tables |
| Tables.WellFormedTimed | app.py:28-29 | rows accepted at construction have readable start and end times, so later time parsing cannot fail |
| Tables.SessionDate | app.py:100 | the date of an accepted session is a real calendar day |
| Scheduler.CourseScheduler.AllCourses | app.py:34-36 | every course record, in table order |
| Scheduler.CourseScheduler.CoursesByProgram | app.py:38-43 | "All" gives the whole table; any other name gives exactly the courses of that program, each as often as in the table, in table order |
| Catalog.ByProgram | app.py:42-43 | membership iff the program matches, multiplicities kept, table order kept |
| Scheduler.CourseScheduler.Programs | app.py:45-47 | strictly ascending, and a name is listed iff some course has that program |
| Catalog.ProgramList | app.py:47 | strictly ascending listing of exactly the program names of the table |
| Catalog.ProgramListUnique | app.py:47 | any strictly ascending listing of the program names equals the program list, so it is the sorted list of distinct names |
| Ordering.Insert | app.py:47 | inserting a name into an ascending duplicate-free listing keeps it so, and adds exactly that name |
| Scheduler.ProgramsCoverCourses | app.py:38-47 | a course is listed under "All" iff it is listed under some program of the program list |
| Clock.ParseClock | app.py:74-77 | any time that is read lies in 0..1439 |
| Clock.FormatClock | app.py:74-77 | writes a minute of the day as five characters "HH:MM" |
| Clock.ClockRoundTrip | app.py:74-77 | writing a minute and reading it back gives the same minute |
| Clock.ClockCanonical | app.py:74-77 | a five-character time that reads is the canonical text of its minute |
| Overlaps.IntervalsOverlap | app.py:78 | the strict half-open test: each range starts before the other ends |
| Overlaps.Clash | app.py:73-78 | two sessions clash when their date texts are equal, both have readable times and their minute ranges overlap strictly |
| Overlaps.Evidence | app.py:79-89 | the conflict record of two sessions: the first session's date and both sessions' start and end texts |
| Overlaps.Row | app.py:72-89 | the conflict records of one session against each session of the other course, in the order of that course's sessions |
| Overlaps.Grid | app.py:70-90 | the conflict records of every session of the first course against every session of the second, row by row |
| Overlaps.VerdictOf | app.py:90 | "no conflict" for an empty list, otherwise the whole list |
| Catalog.SessionsOf | app.py:54-56 | the session rows whose course id is the given one, in table order |
| Sequences.Filter | app.py:42-43 | the elements that pass the test, in their original order |
| Overlaps.CourseConflicts | app.py:54-57 | the conflicts between the sessions of two courses |
| Overlaps.Report | app.py:49-66 | the entries recorded by the scan of all pairs i < j of the selection, one per pair with conflicts |
| Projector.MakeEvent | app.py:101-111 | the event of one session joined with its course record |
| Projector.CalendarEvents | app.py:92-113 | the events of the sessions of the selected ids, in session-table order |
| Calendar.WeekdayName | app.py:110 | the full English weekday name of a date |
| Overlaps.OverlapSymmetric | app.py:78 | the strict range test gives the same answer with the two ranges swapped |
| Overlaps.TouchingDoesNotOverlap | app.py:78 | a range ending where the other starts does not overlap it |
| Overlaps.ClashSymmetric | app.py:73-78 | two sessions clash iff they clash in the other order |
| Overlaps.TouchingSessionsDoNotClash | app.py:73-78 | sessions that only touch never clash |
| Overlaps.RowStep | app.py:72-89 | one inner step appends the record of the current pair exactly when it clashes |
| Overlaps.GridStep | app.py:71-89 | one outer step appends the whole row of the current session |
| Overlaps.RowSize | app.py:72-89 | a row has at most one record per session compared |
| Overlaps.RowSound | app.py:72-89 | every record of a row comes from a clashing session |
| Overlaps.RowComplete | app.py:72-89 | every clashing session has its record in the row |
| Overlaps.GridSize | app.py:70-90 | at most \|sessions1\| * \|sessions2\| conflicts |
| Overlaps.GridSound | app.py:70-90 | every conflict comes from a clashing pair of sessions |
| Overlaps.GridComplete | app.py:70-90 | every clashing pair of sessions is reported |
| Overlaps.GridMember | app.py:70-90 | a conflict is reported iff it is the record of a clashing pair |
| Overlaps.GridEmpty | app.py:70-90 | no conflict is reported exactly when no pair of sessions clashes |
| Overlaps.ConflictRecord | app.py:79-89 | each conflict carries the common date of both sessions and both sessions' time texts unchanged, and their minute ranges overlap |
| Overlaps.GridSwap | app.py:68-90 | comparing in the other order reports the same conflicts with the two sides swapped |
| Scheduler.CourseScheduler.SessionsOverlap | app.py:68-90 | the verdict lists every clashing pair in nested-loop order; at most \|sessions1\| * \|sessions2\| of them; "no conflict" exactly when no pair clashes |
| Catalog.SessionsOfSpec | app.py:54-56 | the sessions of a course are exactly its rows, each as often as in the table, in table order |
| Scheduler.CourseScheduler.SessionsFor | app.py:54-56 | exactly the session rows of the course; all readable |
| Overlaps.PairTable | app.py:53-57 | the table of course pairs is square, one row and column per selected course |
| Overlaps.PairTableAt | app.py:54-57 | cell (i, j) holds the conflicts between the sessions of the i-th and the j-th course |
| Overlaps.ScanStep | app.py:55-64 | one inner step of the course scan appends the pair's entry exactly when the pair has conflicts |
| Overlaps.ScannedSound | app.py:53-64 | every entry recorded so far comes from an earlier pair a < b with a non-empty cell |
| Overlaps.ScannedComplete | app.py:53-64 | every earlier pair a < b with a non-empty cell has its entry recorded |
| Overlaps.ScannedLength | app.py:53-64 | one entry is recorded per recorded pair |
| Overlaps.ScannedAt | app.py:53-64 | the k-th entry is the entry of the k-th recorded pair, which is earlier and non-empty |
| Overlaps.PairsAscending | app.py:53-55 | recorded pairs come in strictly increasing (i, j) order |
| Scheduler.CourseScheduler.FindOverlappingCourses | app.py:49-66 | returns the overlap report of the selection |
| Overlaps.ReportSound | app.py:58-64 | every entry names two courses at positions a < b, is marked `time_overlap` and carries their full, non-empty conflict list |
| Overlaps.ReportComplete | app.py:55-64 | every pair a < b of selected courses with a conflict has its entry in the report |
| Overlaps.ReportEntry | app.py:53-64 | the report has one entry per reported pair; the k-th entry names the two courses of the k-th pair and their conflicts |
| Overlaps.ReportPairsAscending | app.py:53-55 | the reported pairs are in strictly increasing (i, j) order, so no pair is reported twice |
| Overlaps.PairSwap | app.py:57 | two courses compared in the other order have the same conflicts with the sides swapped |
| Overlaps.ShortSelection | app.py:53-55 | a selection of zero or one course has an empty report |
| Calendar.ParseDate | app.py:100 | any date that is read is a real calendar day |
| Calendar.FormatDate | app.py:100 | a date with a four-digit year is written as ten characters |
| Calendar.DateRoundTrip | app.py:100 | writing a date and reading it back gives the same date |
| Calendar.Weekday | app.py:110 | the weekday number lies in 0..6 |
| Calendar.NextDay | app.py:110 | the day after a real day is a real day |
| Calendar.YearStep | app.py:110 | the day count of the next New Year's Day exceeds this one by the length of the year |
| Calendar.NextDayNumber | app.py:110 | consecutive days have consecutive day numbers, across month and year ends |
| Calendar.NextWeekday | app.py:110 | the weekday of the next day is the next weekday, Sunday wrapping to Monday |
| Calendar.FirstOfSeptember2025 | app.py:100-110 | "2025-09-01" reads as that date, a Monday |
| Catalog.CoursesIn | app.py:95 | the courses whose id is selected, each as often as in the table, in table order |
| Catalog.SessionsIn | app.py:96 | the sessions whose course id is selected, each as often as in the table, in table order |
| Projector.FirstWithId | app.py:99 | no record is found iff no course has that id; a found record has that id |
| Projector.FirstWithIdIsFirst | app.py:99 | the record found is the one at the first position with that id |
| Projector.FirstWithIdSelected | app.py:95-99 | searching the selected courses finds the same record as searching the whole table |
| Projector.FirstWithIdFilter | app.py:95-99 | a filter that keeps every row with the id does not change the first match |
| Projector.EventsOf | app.py:98-111 | one event per session |
| Projector.EventsOfAt | app.py:98-111 | the k-th event is built from the k-th session and its course record |
| Projector.EventsOfStep | app.py:98-111 | one loop step appends the event of the current session |
| Projector.SelectionJoinable | app.py:95-99 | when every selected session has a course record, each finds one among the selected courses |
| Projector.CalendarEventsSpec | app.py:92-113 | one event per selected session, in table order; id, title "id: name", instructor, location and program from the course; date and times copied; day is the weekday of the date |
| Scheduler.CourseScheduler.GetCalendarEvents | app.py:92-113 | returns the calendar events of the selection |
| Scheduler.CalendarRequest | app.py:136-142 | the events of the request, and the overlaps of the requested courses only when more than one id is requested |
| Scenarios.OverlappingMorning | app.py:73-89 | 09:00-10:30 and 10:00-11:30 on one date give exactly one conflict, with both time texts |
| Scenarios.BackToBack | app.py:78 | 09:00-10:30 and 10:30-11:30 on one date give no conflict |
| Scenarios.DifferentDates | app.py:73 | equal times on different dates give no conflict |

## Left out

- The web layer is not modelled: routes, templates, JSON encoding and the module-level scheduler (app.py:116-156). Only the "more than one id" rule of the calendar request is kept, as `Scheduler.CalendarRequest`.
- Reading the CSV files and re-raising a missing file as `FileNotFoundError` (app.py:17-32) is file I/O. The tables come in as sequences of records.
- The `start_datetime` and `end_datetime` columns (app.py:28-29) are never read again. Only their effect is kept: a row that cannot be read makes construction fail, modelled by `Scheduler.Load` returning nothing.
- Clock.ParseClock: reads only "H:MM" and "HH:MM" on the 24-hour clock. The general-purpose time parser also accepts seconds, AM/PM and other forms; rows in those forms are rejected by `Scheduler.Load` instead.
- Calendar.ParseDate: reads only "YYYY-MM-DD". Other date forms are not accepted.
- Calendar.ParseDate: does not model the timestamp range of the data-frame library, which rejects years outside roughly 1677-2262. The model accepts any year from 1.
- Missing cells and data-frame column typing are not modelled. Examples are empty cells read as NaN and numeric ids read as numbers; every field is text.
- Only the five course columns and four session columns the logic reads are modelled. Any extra columns are not.
- Calendar.WeekdayName: gives English names, as in the C locale. Locale-dependent names are not modelled.
- Scheduler.CourseScheduler.SessionsOverlap: requires readable times for every session given. The source parses times only for pairs on the same date. The model's precondition holds for every comparison made through a loaded scheduler.
- Scheduler.CourseScheduler.FindOverlappingCourses: requires readable times for every session row; this holds for every loaded scheduler.
- Scheduler.CourseScheduler.GetCalendarEvents: requires that every selected session has a course record. The source fails with an index error otherwise.
- Filtering by boolean masks and `isin` is modelled as a sequence filter. Records converted to dictionaries are modelled as datatypes.
- The weekday-recurrence variant of conflict detection is not modelled. It appears only in the two demo scripts, and the scheduler does not implement it.
