/** Worked examples of conflict detection on concrete session rows. */
module Scenarios {
  import opened Options
  import opened Clock
  import opened Tables
  import opened Sequences
  import opened Overlaps

  /** 09:00-10:30 and 10:00-11:30 on the same date conflict once, on that date. */
  lemma OverlappingMorning()
    ensures Grid([Session("CS101", "2025-09-01", "09:00", "10:30")],
                 [Session("MATH201", "2025-09-01", "10:00", "11:30")])
      == [Conflict("2025-09-01", SessionTimes("09:00", "10:30"), SessionTimes("10:00", "11:30"))]
  {
    var a := Session("CS101", "2025-09-01", "09:00", "10:30");
    var b := Session("MATH201", "2025-09-01", "10:00", "11:30");
    assert ParseClock("09:00") == Some(540) && ParseClock("10:30") == Some(630);
    assert ParseClock("10:00") == Some(600) && ParseClock("11:30") == Some(690);
    assert Clash(a, b);
    assert Row(a, [b]) == [Evidence(a, b)] by {
      assert Init([b]) == [] && Last([b]) == b;
    }
    assert Init([a]) == [] && Last([a]) == a;
  }

  /** 09:00-10:30 and 10:30-11:30 on the same date only touch and do not conflict. */
  lemma BackToBack()
    ensures Grid([Session("CS101", "2025-09-01", "09:00", "10:30")],
                 [Session("PHYS101", "2025-09-01", "10:30", "11:30")]) == []
  {
    var a := Session("CS101", "2025-09-01", "09:00", "10:30");
    var b := Session("PHYS101", "2025-09-01", "10:30", "11:30");
    assert ParseClock("10:30") == Some(630);
    assert ParseClock("09:00") == Some(540) && ParseClock("11:30") == Some(690);
    assert !Clash(a, b);
    assert Init([b]) == [] && Last([b]) == b;
    assert Init([a]) == [] && Last([a]) == a;
  }

  /** The same times on different dates do not conflict. */
  lemma DifferentDates()
    ensures Grid([Session("CS101", "2025-09-01", "09:00", "10:30")],
                 [Session("MATH201", "2025-09-02", "09:00", "10:30")]) == []
  {
    var a := Session("CS101", "2025-09-01", "09:00", "10:30");
    var b := Session("MATH201", "2025-09-02", "09:00", "10:30");
    assert !Clash(a, b);
    assert Init([b]) == [] && Last([b]) == b;
    assert Init([a]) == [] && Last([a]) == a;
  }
}
