/**
 * Conflict detection. Two sessions conflict when they are on the same date
 * (the date texts are equal) and their time ranges overlap in the strict
 * half-open sense. For two courses every pair of their sessions is tested,
 * row by row (each session of the first course against every session of the
 * second); for a selection of courses every pair (i, j) with i < j is tested,
 * in increasing (i, j) order.
 */
module Overlaps {
  import opened Sequences
  import opened Tables
  import opened Catalog

  const TimeOverlap: string := "time_overlap"

  /** The start and end texts of one side of a conflict. */
  datatype SessionTimes = SessionTimes(startTime: string, endTime: string)

  /** Evidence that two sessions conflict. */
  datatype Conflict = Conflict(date: string, session1: SessionTimes, session2: SessionTimes)

  /** Two courses with at least one conflicting pair of sessions. */
  datatype Overlap = Overlap(course1: Course, course2: Course, conflictType: string, conflicts: seq<Conflict>)

  /** The result of comparing two courses' sessions: no conflict, or all the conflicts found. */
  datatype Verdict = NoConflict | Conflicts(list: seq<Conflict>)

  /** Strict overlap of the ranges [start1, end1) and [start2, end2). */
  predicate IntervalsOverlap(start1: int, end1: int, start2: int, end2: int)
  {
    start1 < end2 && start2 < end1
  }

  /** The overlap test does not depend on which range comes first. */
  lemma OverlapSymmetric(start1: int, end1: int, start2: int, end2: int)
    ensures IntervalsOverlap(start1, end1, start2, end2) == IntervalsOverlap(start2, end2, start1, end1)
  {
  }

  /** A range that ends exactly when the other starts does not overlap it. */
  lemma TouchingDoesNotOverlap(start1: int, end1: int, start2: int, end2: int)
    requires end1 == start2 || end2 == start1
    ensures !IntervalsOverlap(start1, end1, start2, end2)
  {
  }

  /** Sessions `a` and `b` are on the same date and both have readable times that overlap. */
  predicate Clash(a: Session, b: Session)
  {
    a.date == b.date && Timed(a) && Timed(b) &&
    IntervalsOverlap(StartMinute(a), EndMinute(a), StartMinute(b), EndMinute(b))
  }

  lemma ClashSymmetric(a: Session, b: Session)
    ensures Clash(a, b) == Clash(b, a)
  {
    if Timed(a) && Timed(b) {
      OverlapSymmetric(StartMinute(a), EndMinute(a), StartMinute(b), EndMinute(b));
    }
  }

  /** Sessions that only touch, one ending at the minute the other starts, do not clash. */
  lemma TouchingSessionsDoNotClash(a: Session, b: Session)
    requires Timed(a) && Timed(b)
    requires EndMinute(a) == StartMinute(b) || EndMinute(b) == StartMinute(a)
    ensures !Clash(a, b)
  {
    TouchingDoesNotOverlap(StartMinute(a), EndMinute(a), StartMinute(b), EndMinute(b));
  }

  /** The conflict record for `a` against `b`: the date and both sessions' time texts. */
  function Evidence(a: Session, b: Session): Conflict
  {
    Conflict(a.date, SessionTimes(a.startTime, a.endTime), SessionTimes(b.startTime, b.endTime))
  }

  function Swap(c: Conflict): Conflict
  {
    Conflict(c.date, c.session2, c.session1)
  }

  /** The conflicts of session `a` against each of `ys`, in the order of `ys`. */
  function Row(a: Session, ys: seq<Session>): seq<Conflict>
  {
    if ys == [] then []
    else Row(a, Init(ys)) + (if Clash(a, Last(ys)) then [Evidence(a, Last(ys))] else [])
  }

  /** The conflicts of every session of `xs` against every session of `ys`, row by row. */
  function Grid(xs: seq<Session>, ys: seq<Session>): seq<Conflict>
  {
    if xs == [] then [] else Grid(Init(xs), ys) + Row(Last(xs), ys)
  }

  /** Extending `ys` by one session extends the row by that session's conflict, if any. */
  lemma RowStep(a: Session, ys: seq<Session>, j: nat)
    requires j < |ys|
    ensures Row(a, ys[..j + 1]) == Row(a, ys[..j]) + if Clash(a, ys[j]) then [Evidence(a, ys[j])] else []
  {
    assert Init(ys[..j + 1]) == ys[..j];
  }

  /** Extending `xs` by one session appends that session's row. */
  lemma GridStep(xs: seq<Session>, ys: seq<Session>, i: nat)
    requires i < |xs|
    ensures Grid(xs[..i + 1], ys) == Grid(xs[..i], ys) + Row(xs[i], ys)
  {
    assert Init(xs[..i + 1]) == xs[..i];
  }

  lemma {:induction false} RowSize(a: Session, ys: seq<Session>)
    ensures |Row(a, ys)| <= |ys|
  {
    if ys != [] {
      RowSize(a, Init(ys));
    }
  }

  lemma {:induction false} RowSound(a: Session, ys: seq<Session>, c: Conflict)
    requires c in Row(a, ys)
    ensures exists j :: 0 <= j < |ys| && Clash(a, ys[j]) && c == Evidence(a, ys[j])
  {
    var init := Init(ys);
    if c in Row(a, init) {
      RowSound(a, init, c);
      var j :| 0 <= j < |init| && Clash(a, init[j]) && c == Evidence(a, init[j]);
      assert ys[j] == init[j];
    } else {
      assert ys[|ys| - 1] == Last(ys);
    }
  }

  lemma {:induction false} RowComplete(a: Session, ys: seq<Session>, j: nat)
    requires j < |ys| && Clash(a, ys[j])
    ensures Evidence(a, ys[j]) in Row(a, ys)
  {
    var init := Init(ys);
    if j < |init| {
      assert init[j] == ys[j];
      RowComplete(a, init, j);
    }
  }

  /** At most one conflict is reported per pair of sessions. */
  lemma {:induction false} GridSize(xs: seq<Session>, ys: seq<Session>)
    ensures |Grid(xs, ys)| <= |xs| * |ys|
  {
    if xs != [] {
      GridSize(Init(xs), ys);
      RowSize(Last(xs), ys);
      assert |xs| * |ys| == |Init(xs)| * |ys| + |ys|;
    }
  }

  /** Every reported conflict comes from a pair of sessions that clash. */
  lemma {:induction false} GridSound(xs: seq<Session>, ys: seq<Session>, c: Conflict)
    requires c in Grid(xs, ys)
    ensures exists i, j :: 0 <= i < |xs| && 0 <= j < |ys| && Clash(xs[i], ys[j]) && c == Evidence(xs[i], ys[j])
  {
    var init, last := Init(xs), Last(xs);
    if c in Grid(init, ys) {
      GridSound(init, ys, c);
      var i, j :| 0 <= i < |init| && 0 <= j < |ys| && Clash(init[i], ys[j]) && c == Evidence(init[i], ys[j]);
      assert xs[i] == init[i];
    } else {
      RowSound(last, ys, c);
      var j :| 0 <= j < |ys| && Clash(last, ys[j]) && c == Evidence(last, ys[j]);
      assert xs[|xs| - 1] == last;
    }
  }

  /** Every pair of sessions that clash is reported. */
  lemma {:induction false} GridComplete(xs: seq<Session>, ys: seq<Session>, i: nat, j: nat)
    requires i < |xs| && j < |ys| && Clash(xs[i], ys[j])
    ensures Evidence(xs[i], ys[j]) in Grid(xs, ys)
  {
    var init, last := Init(xs), Last(xs);
    if i < |init| {
      assert init[i] == xs[i];
      GridComplete(init, ys, i, j);
    } else {
      assert xs[i] == last;
      RowComplete(last, ys, j);
    }
  }

  /** A conflict is reported exactly for the session pairs that clash. */
  lemma GridMember(xs: seq<Session>, ys: seq<Session>, c: Conflict)
    ensures c in Grid(xs, ys) <==>
      exists i, j :: 0 <= i < |xs| && 0 <= j < |ys| && Clash(xs[i], ys[j]) && c == Evidence(xs[i], ys[j])
  {
    if c in Grid(xs, ys) {
      GridSound(xs, ys, c);
    }
    if i, j :| 0 <= i < |xs| && 0 <= j < |ys| && Clash(xs[i], ys[j]) && c == Evidence(xs[i], ys[j]) {
      GridComplete(xs, ys, i, j);
    }
  }

  /** No conflict is reported exactly when no pair of sessions clashes. */
  lemma GridEmpty(xs: seq<Session>, ys: seq<Session>)
    ensures Grid(xs, ys) == [] <==> forall i, j :: 0 <= i < |xs| && 0 <= j < |ys| ==> !Clash(xs[i], ys[j])
  {
    if Grid(xs, ys) != [] {
      GridMember(xs, ys, Grid(xs, ys)[0]);
    }
    if i, j :| 0 <= i < |xs| && 0 <= j < |ys| && Clash(xs[i], ys[j]) {
      GridMember(xs, ys, Evidence(xs[i], ys[j]));
    }
  }

  /**
   * Each conflict names the common date of two sessions whose minute ranges
   * overlap, and carries both sessions' time texts unchanged.
   */
  lemma ConflictRecord(xs: seq<Session>, ys: seq<Session>, c: Conflict)
    requires AllTimed(xs) && AllTimed(ys)
    requires c in Grid(xs, ys)
    ensures exists i, j :: (0 <= i < |xs| && 0 <= j < |ys|
      && c.date == xs[i].date && c.date == ys[j].date
      && c.session1 == SessionTimes(xs[i].startTime, xs[i].endTime)
      && c.session2 == SessionTimes(ys[j].startTime, ys[j].endTime)
      && IntervalsOverlap(StartMinute(xs[i]), EndMinute(xs[i]), StartMinute(ys[j]), EndMinute(ys[j])))
  {
    GridMember(xs, ys, c);
    var i, j :| 0 <= i < |xs| && 0 <= j < |ys| && Clash(xs[i], ys[j]) && c == Evidence(xs[i], ys[j]);
  }

  /** Comparing the courses the other way round reports the same conflicts with the sides swapped. */
  lemma GridSwap(xs: seq<Session>, ys: seq<Session>, c: Conflict)
    ensures c in Grid(xs, ys) <==> Swap(c) in Grid(ys, xs)
  {
    GridMember(xs, ys, c);
    GridMember(ys, xs, Swap(c));
    if c in Grid(xs, ys) {
      var i, j :| 0 <= i < |xs| && 0 <= j < |ys| && Clash(xs[i], ys[j]) && c == Evidence(xs[i], ys[j]);
      ClashSymmetric(xs[i], ys[j]);
      assert Swap(c) == Evidence(ys[j], xs[i]);
    }
    if Swap(c) in Grid(ys, xs) {
      var j, i :| 0 <= j < |ys| && 0 <= i < |xs| && Clash(ys[j], xs[i]) && Swap(c) == Evidence(ys[j], xs[i]);
      ClashSymmetric(xs[i], ys[j]);
      assert c == Evidence(xs[i], ys[j]);
    }
  }

  /** The verdict for a list of conflicts: none, or all of them. */
  function VerdictOf(cs: seq<Conflict>): Verdict
  {
    if cs == [] then NoConflict else Conflicts(cs)
  }

  /** The conflicts between the sessions of course `c1` and those of course `c2`. */
  function CourseConflicts(sessions: seq<Session>, c1: Course, c2: Course): seq<Conflict>
  {
    Grid(SessionsOf(sessions, c1.courseId), SessionsOf(sessions, c2.courseId))
  }

  /** A square table of conflict lists, indexed by two positions of a selection. */
  type Table = seq<seq<seq<Conflict>>>

  /** The cell (i, j) of a table; empty outside it. */
  function Cell(table: Table, i: nat, j: nat): seq<Conflict>
  {
    if i < |table| && j < |table[i]| then table[i][j] else []
  }

  /** The table of a selection: cell (i, j) compares the courses at positions i and j. */
  function PairTable(selected: seq<Course>, sessions: seq<Session>): (t: Table)
    ensures |t| == |selected|
    ensures forall i :: 0 <= i < |t| ==> |t[i]| == |selected|
  {
    seq(|selected|, i requires 0 <= i < |selected| =>
      seq(|selected|, j requires 0 <= j < |selected| => CourseConflicts(sessions, selected[i], selected[j])))
  }

  lemma PairTableAt(selected: seq<Course>, sessions: seq<Session>, i: nat, j: nat)
    requires i < |selected| && j < |selected|
    ensures Cell(PairTable(selected, sessions), i, j) == CourseConflicts(sessions, selected[i], selected[j])
  {
  }

  /**
   * One step of the inner loop: comparing the courses at positions i and j
   * appends their entry, if they conflict, to what the scan has recorded.
   */
  lemma ScanStep(selected: seq<Course>, sessions: seq<Session>, i: nat, j: nat, details: Verdict)
    requires i < j < |selected|
    requires details == VerdictOf(CourseConflicts(sessions, selected[i], selected[j]))
    ensures Scanned(selected, PairTable(selected, sessions), i, j + 1) ==
      Scanned(selected, PairTable(selected, sessions), i, j) +
      if details.Conflicts? then [Overlap(selected[i], selected[j], TimeOverlap, details.list)] else []
  {
    PairTableAt(selected, sessions, i, j);
  }

  /** Two positions of a selection. */
  datatype Pair = Pair(i: nat, j: nat)

  /** Row-by-row order: by first position, then by second. */
  predicate PairLess(p: Pair, q: Pair)
  {
    p.i < q.i || (p.i == q.i && p.j < q.j)
  }

  /**
   * A point the scan of `selected` passes: the outer loop at position `i`
   * and the inner loop at position `j`, from (i, i + 1) up to the row's end,
   * or the point (|selected|, |selected| + 1) where the scan stops.
   */
  predicate ScanPoint(selected: seq<Course>, i: nat, j: nat)
  {
    i < j && (j <= |selected| || (i <= |selected| && j == i + 1))
  }

  /** The overlap entry the scan records for positions (i, j), if their cell is not empty. */
  function EntryAt(selected: seq<Course>, table: Table, i: nat, j: nat): seq<Overlap>
  {
    if i < |selected| && j < |selected| && Cell(table, i, j) != [] then
      [Overlap(selected[i], selected[j], TimeOverlap, Cell(table, i, j))]
    else []
  }

  /**
   * The entries the scan has recorded when the outer loop is at position `i`
   * and the inner loop at position `j`: those of every pair (a, b) with
   * a < b of the rows before `i`, then those of (i, i + 1), ..., (i, j - 1).
   */
  function Scanned(selected: seq<Course>, table: Table, i: nat, j: nat): seq<Overlap>
    decreases i, j
  {
    if j > i + 1 then Scanned(selected, table, i, j - 1) + EntryAt(selected, table, i, j - 1)
    else if i == 0 then []
    else Scanned(selected, table, i - 1, |selected|)
  }

  /** The overlap report for a selection: what the scan has recorded when it stops. */
  function Report(selected: seq<Course>, sessions: seq<Session>): seq<Overlap>
  {
    Scanned(selected, PairTable(selected, sessions), |selected|, |selected| + 1)
  }

  /**
   * Every entry recorded up to (i, j) belongs to a pair a < b before (i, j)
   * and carries that pair's cell, which is not empty.
   */
  lemma {:induction false} ScannedSound(selected: seq<Course>, table: Table, i: nat, j: nat, e: Overlap)
    requires ScanPoint(selected, i, j) && e in Scanned(selected, table, i, j)
    ensures exists a: nat, b: nat ::
      a < b < |selected| && PairLess(Pair(a, b), Pair(i, j)) && Cell(table, a, b) != [] &&
      e == Overlap(selected[a], selected[b], TimeOverlap, Cell(table, a, b))
    decreases i, j
  {
    if j > i + 1 {
      if e in Scanned(selected, table, i, j - 1) {
        ScannedSound(selected, table, i, j - 1, e);
      } else {
        assert e in EntryAt(selected, table, i, j - 1);
        assert PairLess(Pair(i, j - 1), Pair(i, j));
      }
    } else if i > 0 {
      ScannedSound(selected, table, i - 1, |selected|, e);
    }
  }

  /** Every pair a < b before (i, j) with a non-empty cell has its entry recorded by (i, j). */
  lemma {:induction false} ScannedComplete(selected: seq<Course>, table: Table, i: nat, j: nat, a: nat, b: nat)
    requires ScanPoint(selected, i, j)
    requires a < b < |selected| && PairLess(Pair(a, b), Pair(i, j)) && Cell(table, a, b) != []
    ensures Overlap(selected[a], selected[b], TimeOverlap, Cell(table, a, b)) in Scanned(selected, table, i, j)
    decreases i, j
  {
    if j > i + 1 {
      if (a, b) != (i, j - 1) {
        ScannedComplete(selected, table, i, j - 1, a, b);
      }
    } else {
      ScannedComplete(selected, table, i - 1, |selected|, a, b);
    }
  }

  /** The pairs whose entries the scan has recorded up to (i, j), in scan order. */
  function PairsScanned(selected: seq<Course>, table: Table, i: nat, j: nat): seq<Pair>
    decreases i, j
  {
    if j > i + 1 then
      PairsScanned(selected, table, i, j - 1) +
      (if i < |selected| && j - 1 < |selected| && Cell(table, i, j - 1) != [] then [Pair(i, j - 1)] else [])
    else if i == 0 then []
    else PairsScanned(selected, table, i - 1, |selected|)
  }

  /** The entry for pair `p` of a selection, read from its cell. */
  function EntryFor(selected: seq<Course>, table: Table, p: Pair): Overlap
    requires p.i < |selected| && p.j < |selected|
  {
    Overlap(selected[p.i], selected[p.j], TimeOverlap, Cell(table, p.i, p.j))
  }

  /** Pair `p` precedes (i, j), has i < j within the selection and a non-empty cell. */
  predicate RecordedPair(selected: seq<Course>, table: Table, p: Pair, i: nat, j: nat)
  {
    p.i < p.j < |selected| && PairLess(p, Pair(i, j)) && Cell(table, p.i, p.j) != []
  }

  /** One entry is recorded for each recorded pair. */
  lemma {:induction false} ScannedLength(selected: seq<Course>, table: Table, i: nat, j: nat)
    ensures |PairsScanned(selected, table, i, j)| == |Scanned(selected, table, i, j)|
    decreases i, j
  {
    if j > i + 1 {
      ScannedLength(selected, table, i, j - 1);
    } else if i > 0 {
      ScannedLength(selected, table, i - 1, |selected|);
    }
  }

  /**
   * The k-th entry recorded up to (i, j) is the entry of the k-th recorded
   * pair, which precedes (i, j) and has a non-empty cell.
   */
  lemma {:induction false} ScannedAt(selected: seq<Course>, table: Table, i: nat, j: nat, k: nat)
    requires ScanPoint(selected, i, j) && k < |PairsScanned(selected, table, i, j)|
    ensures RecordedPair(selected, table, PairsScanned(selected, table, i, j)[k], i, j)
    ensures k < |Scanned(selected, table, i, j)|
    ensures Scanned(selected, table, i, j)[k] == EntryFor(selected, table, PairsScanned(selected, table, i, j)[k])
    decreases i, j
  {
    ScannedLength(selected, table, i, j);
    if j > i + 1 {
      var ps := PairsScanned(selected, table, i, j - 1);
      ScannedLength(selected, table, i, j - 1);
      if k < |ps| {
        ScannedAt(selected, table, i, j - 1, k);
        assert PairsScanned(selected, table, i, j)[k] == ps[k];
        assert Scanned(selected, table, i, j)[k] == Scanned(selected, table, i, j - 1)[k];
      } else {
        assert PairsScanned(selected, table, i, j)[k] == Pair(i, j - 1);
      }
    } else {
      ScannedAt(selected, table, i - 1, |selected|, k);
    }
  }

  /** The recorded pairs come in strictly increasing order, so no pair is recorded twice. */
  lemma {:induction false} PairsAscending(selected: seq<Course>, table: Table, i: nat, j: nat, k: nat, m: nat)
    requires ScanPoint(selected, i, j) && k < m < |PairsScanned(selected, table, i, j)|
    ensures PairLess(PairsScanned(selected, table, i, j)[k], PairsScanned(selected, table, i, j)[m])
    decreases i, j
  {
    if j > i + 1 {
      var ps := PairsScanned(selected, table, i, j - 1);
      if m < |ps| {
        PairsAscending(selected, table, i, j - 1, k, m);
        assert PairsScanned(selected, table, i, j)[k] == ps[k];
        assert PairsScanned(selected, table, i, j)[m] == ps[m];
      } else {
        ScannedAt(selected, table, i, j - 1, k);
        assert PairsScanned(selected, table, i, j)[k] == ps[k];
        assert PairsScanned(selected, table, i, j)[m] == Pair(i, j - 1);
      }
    } else {
      PairsAscending(selected, table, i - 1, |selected|, k, m);
    }
  }

  /**
   * What `find_overlapping_courses` reports for a selection: each entry names
   * two courses at positions a < b, with the full, non-empty list of their
   * conflicts.
   */
  lemma ReportSound(selected: seq<Course>, sessions: seq<Session>, e: Overlap)
    requires e in Report(selected, sessions)
    ensures e.conflictType == TimeOverlap && e.conflicts != []
    ensures exists a: nat, b: nat ::
      a < b < |selected| && e.course1 == selected[a] && e.course2 == selected[b] &&
      e.conflicts == CourseConflicts(sessions, selected[a], selected[b])
  {
    var table := PairTable(selected, sessions);
    ScannedSound(selected, table, |selected|, |selected| + 1, e);
    var a: nat, b: nat :| a < b < |selected| && Cell(table, a, b) != [] &&
      e == Overlap(selected[a], selected[b], TimeOverlap, Cell(table, a, b));
    PairTableAt(selected, sessions, a, b);
  }

  /** Every pair of selected courses a < b that has a conflict has its entry in the report. */
  lemma ReportComplete(selected: seq<Course>, sessions: seq<Session>, a: nat, b: nat)
    requires a < b < |selected| && CourseConflicts(sessions, selected[a], selected[b]) != []
    ensures Overlap(selected[a], selected[b], TimeOverlap, CourseConflicts(sessions, selected[a], selected[b]))
      in Report(selected, sessions)
  {
    PairTableAt(selected, sessions, a, b);
    ScannedComplete(selected, PairTable(selected, sessions), |selected|, |selected| + 1, a, b);
  }

  /** The pairs of positions whose entries make up the report, in report order. */
  function ReportPairs(selected: seq<Course>, sessions: seq<Session>): seq<Pair>
  {
    PairsScanned(selected, PairTable(selected, sessions), |selected|, |selected| + 1)
  }

  /**
   * The report has one entry per reported pair: the k-th entry names the
   * courses of the k-th pair, a < b, with their conflicts, which are not empty.
   */
  lemma ReportEntry(selected: seq<Course>, sessions: seq<Session>, k: nat)
    requires k < |ReportPairs(selected, sessions)|
    ensures |Report(selected, sessions)| == |ReportPairs(selected, sessions)|
    ensures var p := ReportPairs(selected, sessions)[k];
      && p.i < p.j < |selected|
      && CourseConflicts(sessions, selected[p.i], selected[p.j]) != []
      && Report(selected, sessions)[k] ==
         Overlap(selected[p.i], selected[p.j], TimeOverlap, CourseConflicts(sessions, selected[p.i], selected[p.j]))
  {
    var table := PairTable(selected, sessions);
    ScannedLength(selected, table, |selected|, |selected| + 1);
    ScannedAt(selected, table, |selected|, |selected| + 1, k);
    var p := ReportPairs(selected, sessions)[k];
    PairTableAt(selected, sessions, p.i, p.j);
  }

  /** The reported pairs are in strictly increasing (a, b) order: no pair is reported twice. */
  lemma ReportPairsAscending(selected: seq<Course>, sessions: seq<Session>, k: nat, m: nat)
    requires k < m < |ReportPairs(selected, sessions)|
    ensures PairLess(ReportPairs(selected, sessions)[k], ReportPairs(selected, sessions)[m])
  {
    PairsAscending(selected, PairTable(selected, sessions), |selected|, |selected| + 1, k, m);
  }

  /**
   * Selecting two courses in the other order reports the same conflicts for
   * the pair, with the two sides of each conflict swapped.
   */
  lemma PairSwap(a: Course, b: Course, sessions: seq<Session>, c: Conflict)
    ensures c in CourseConflicts(sessions, a, b) <==> Swap(c) in CourseConflicts(sessions, b, a)
  {
    GridSwap(SessionsOf(sessions, a.courseId), SessionsOf(sessions, b.courseId), c);
  }

  /** A selection of fewer than two courses has no pair to compare. */
  lemma ShortSelection(selected: seq<Course>, sessions: seq<Session>)
    requires |selected| <= 1
    ensures Report(selected, sessions) == []
  {
    if |selected| == 1 {
      assert Report(selected, sessions) == Scanned(selected, PairTable(selected, sessions), 0, 1);
    }
  }
}
