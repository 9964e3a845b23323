/**
 * The grade engine of the Streamlit copy (`calculate_gpa` in gpa_jotter.py).
 * Its guard differs from the browser copy's: a course counts when its grade is
 * a key of the table and its credits (0 when the key is missing) are non-zero,
 * so negative credits pass. The result is `round(points / credits, 2)`, or 0.0
 * when the credit sum is not positive.
 *
 * GPAs are integers counting hundredths: 914 stands for 9.14.
 */
module PyGradeEngine {
  import opened Wrappers
  import opened GradeTable
  import opened Rounding

  /** A course record; `grade` and `credits` are None when the key is missing. */
  datatype Course = Course(name: string, grade: Option<string>, credits: Option<int>)

  /** A semester record: `{"name": ..., "courses": [...]}`. */
  datatype Semester = Semester(name: string, courses: seq<Course>)

  /** `course.get("credits", 0)`. */
  function CreditsValue(c: Course): int {
    c.credits.GetOr(0)
  }

  /** The guard `grade in GRADE_POINTS and credits`. */
  predicate Counts(c: Course)
    ensures Counts(c) ==> c.grade.Some? && c.grade.value in GradePoints && c.credits.Some?
  {
    c.grade.Some? && c.grade.value in GradePoints && CreditsValue(c) != 0
  }

  /** What one course adds to `total_points`. */
  function PointsOf(c: Course): int {
    if Counts(c) then PointOf(c.grade.value) * CreditsValue(c) else 0
  }

  /** What one course adds to `total_credits`. */
  function CreditsOf(c: Course): int {
    if Counts(c) then CreditsValue(c) else 0
  }

  /** `total_points` once every course of `cs` has been visited, in order. */
  function TotalPoints(cs: seq<Course>): int {
    if cs == [] then 0 else TotalPoints(cs[..|cs| - 1]) + PointsOf(cs[|cs| - 1])
  }

  /** `total_credits` once every course of `cs` has been visited, in order. */
  function TotalCredits(cs: seq<Course>): int {
    if cs == [] then 0 else TotalCredits(cs[..|cs| - 1]) + CreditsOf(cs[|cs| - 1])
  }

  /**
   * The value `calculate_gpa(cs)` returns, in hundredths: zero unless the
   * credit sum is positive, otherwise the hundredth nearest the quotient,
   * an exact tie going to the even neighbour.
   */
  function Gpa(cs: seq<Course>): (r: int)
    ensures TotalCredits(cs) <= 0 ==> r == 0
    ensures TotalCredits(cs) > 0 ==>
      2 * (r * TotalCredits(cs)) - TotalCredits(cs) <= 200 * TotalPoints(cs)
                                                     <= 2 * (r * TotalCredits(cs)) + TotalCredits(cs)
    ensures (TotalCredits(cs) > 0 &&
             (200 * TotalPoints(cs) == 2 * (r * TotalCredits(cs)) - TotalCredits(cs) ||
              200 * TotalPoints(cs) == 2 * (r * TotalCredits(cs)) + TotalCredits(cs)))
            ==> r % 2 == 0
  {
    if TotalCredits(cs) > 0 then RoundHalfEven(TotalPoints(cs), TotalCredits(cs)) else 0
  }

  /** The exact quotient `total_points / total_credits`, before rounding. */
  ghost function Unrounded(cs: seq<Course>): real
    requires TotalCredits(cs) > 0
  {
    TotalPoints(cs) as real / TotalCredits(cs) as real
  }

  /** Every semester's courses, one after another. */
  function Flatten(doc: seq<Semester>): seq<Course> {
    if doc == [] then [] else Flatten(doc[..|doc| - 1]) + doc[|doc| - 1].courses
  }

  /** `calculate_gpa`: one pass over the courses, summing points and credits. */
  method CalculateGpa(courses: seq<Course>) returns (gpa: int)
    ensures gpa == Gpa(courses)
  {
    var totalPoints := 0;
    var totalCredits := 0;
    for i := 0 to |courses|
      invariant totalPoints == TotalPoints(courses[..i])
      invariant totalCredits == TotalCredits(courses[..i])
    {
      var course := courses[i];
      var grade := course.grade;
      var credits := course.credits.GetOr(0);
      if grade.Some? && grade.value in GradePoints && credits != 0 {
        totalPoints := totalPoints + PointOf(grade.value) * credits;
        totalCredits := totalCredits + credits;
      }
      assert courses[..i + 1] == courses[..i] + [course];
      TotalsOfSnoc(courses[..i], course);
    }
    assert courses[..|courses|] == courses;
    gpa := if totalCredits > 0 then RoundHalfEven(totalPoints, totalCredits) else 0;
  }

  // ---------------------------------------------------------------------
  // Properties of the sums

  /** Visiting one more course adds exactly that course's share to each sum. */
  lemma TotalsOfSnoc(cs: seq<Course>, c: Course)
    ensures TotalPoints(cs + [c]) == TotalPoints(cs) + PointsOf(c)
    ensures TotalCredits(cs + [c]) == TotalCredits(cs) + CreditsOf(c)
  {
    assert (cs + [c])[..|cs|] == cs;
  }

  /** Both sums split over a concatenation. */
  lemma {:induction false} TotalsOfConcat(a: seq<Course>, b: seq<Course>)
    ensures TotalPoints(a + b) == TotalPoints(a) + TotalPoints(b)
    ensures TotalCredits(a + b) == TotalCredits(a) + TotalCredits(b)
  {
    if b == [] {
      assert a + b == a;
    } else {
      var b' := b[..|b| - 1];
      assert (a + b)[..|a + b| - 1] == a + b';
      assert (a + b)[|a + b| - 1] == b[|b| - 1];
      TotalsOfConcat(a, b');
    }
  }

  /**
   * Unknown or missing grades, and missing or zero credits, add nothing:
   * putting such a course anywhere into the list leaves both sums as they were.
   */
  lemma CourseFailingGuardAddsNothing(before: seq<Course>, c: Course, after: seq<Course>)
    requires c.grade.None? || c.grade.value !in GradePoints || CreditsValue(c) == 0
    ensures TotalPoints(before + [c] + after) == TotalPoints(before + after)
    ensures TotalCredits(before + [c] + after) == TotalCredits(before + after)
    ensures Gpa(before + [c] + after) == Gpa(before + after)
  {
    TotalsOfConcat(before + [c], after);
    TotalsOfConcat(before, [c]);
    TotalsOfConcat(before, after);
    assert [c][..0] == [];
  }

  /** A credit sum can only be positive if some course passed the guard with positive credits. */
  lemma {:induction false} PositiveCreditsNeedACountedCourse(cs: seq<Course>)
    requires TotalCredits(cs) > 0
    ensures exists k :: 0 <= k < |cs| && Counts(cs[k]) && CreditsValue(cs[k]) > 0
  {
    var init := cs[..|cs| - 1];
    var last := cs[|cs| - 1];
    if Counts(last) && CreditsValue(last) > 0 {
      assert Counts(cs[|cs| - 1]);
    } else {
      PositiveCreditsNeedACountedCourse(init);
      var k :| 0 <= k < |init| && Counts(init[k]) && CreditsValue(init[k]) > 0;
      assert cs[k] == init[k];
    }
  }

  /**
   * When every counted course has positive credits, the point sum lies between
   * 4 and 10 times the credit sum.
   */
  lemma {:induction false} PointsWithinTableRange(cs: seq<Course>)
    requires forall k :: 0 <= k < |cs| && Counts(cs[k]) ==> CreditsValue(cs[k]) > 0
    ensures MinGradePoint * TotalCredits(cs) <= TotalPoints(cs) <= MaxGradePoint * TotalCredits(cs)
  {
    if cs != [] {
      var init := cs[..|cs| - 1];
      assert forall k :: 0 <= k < |init| ==> init[k] == cs[k];
      PointsWithinTableRange(init);
      var c := cs[|cs| - 1];
      if Counts(c) {
        var p := PointOf(c.grade.value);
        var n := CreditsValue(c);
        assert MinGradePoint * n <= p * n <= MaxGradePoint * n;
      }
    }
  }

  // ---------------------------------------------------------------------
  // Properties of the GPA

  /** An empty course list gives 0.0. */
  lemma GpaOfNoCourses()
    ensures Gpa([]) == 0
  {
  }

  /**
   * When every counted course has positive credits and one counts, the exact
   * quotient and the returned value lie between the lowest and highest grade point.
   */
  lemma GpaWithinTableRange(cs: seq<Course>)
    requires forall k :: 0 <= k < |cs| && Counts(cs[k]) ==> CreditsValue(cs[k]) > 0
    requires TotalCredits(cs) > 0
    ensures MinGradePoint as real <= Unrounded(cs) <= MaxGradePoint as real
    ensures 100 * MinGradePoint <= Gpa(cs) <= 100 * MaxGradePoint
  {
    var p, c := TotalPoints(cs), TotalCredits(cs);
    PointsWithinTableRange(cs);
    RealQuotientBounds(p, c, MinGradePoint, MaxGradePoint);
    RoundingExactHundredths(MinGradePoint, c);
    RoundingExactHundredths(MaxGradePoint, c);
    RoundHalfEvenMonotone(MinGradePoint * c, p, c);
    RoundHalfEvenMonotone(p, MaxGradePoint * c, c);
  }

  /**
   * Negative credits pass the guard: an A with -3 credits beside an O with 4
   * gives points 16 over credits 1, a GPA of 16.00, above the table's maximum.
   */
  lemma NegativeCreditsEscapeTableRange()
    ensures Gpa([Course("", Some("A"), Some(-3)), Course("", Some("O"), Some(4))]) == 1600
  {
    var cs := [Course("", Some("A"), Some(-3)), Course("", Some("O"), Some(4))];
    assert cs[..1] == [Course("", Some("A"), Some(-3))];
    assert TotalPoints(cs) == 16 && TotalCredits(cs) == 1;
    RoundingExactHundredths(16, 1);
  }

  /** Changing one course changes each sum by that course's own difference. */
  lemma {:induction false} TotalsOfUpdate(cs: seq<Course>, k: nat, c: Course)
    requires k < |cs|
    ensures TotalPoints(cs[k := c]) == TotalPoints(cs) - PointsOf(cs[k]) + PointsOf(c)
    ensures TotalCredits(cs[k := c]) == TotalCredits(cs) - CreditsOf(cs[k]) + CreditsOf(c)
  {
    var n := |cs| - 1;
    var cs' := cs[k := c];
    if k == n {
      assert cs'[..n] == cs[..n];
    } else {
      assert cs'[..n] == cs[..n][k := c];
      TotalsOfUpdate(cs[..n], k, c);
    }
  }

  /**
   * Raising one counted course with positive credits to a grade worth at least
   * as much, all else fixed, keeps the credit sum and never lowers the GPA.
   */
  lemma RaisingAGradeNeverLowersGpa(cs: seq<Course>, k: nat, better: string)
    requires k < |cs| && Counts(cs[k]) && CreditsValue(cs[k]) > 0
    requires TotalCredits(cs) > 0
    requires better in GradePoints && PointOf(better) >= PointOf(cs[k].grade.value)
    ensures TotalCredits(cs[k := cs[k].(grade := Some(better))]) == TotalCredits(cs)
    ensures Unrounded(cs[k := cs[k].(grade := Some(better))]) >= Unrounded(cs)
    ensures Gpa(cs[k := cs[k].(grade := Some(better))]) >= Gpa(cs)
  {
    var raised := cs[k := cs[k].(grade := Some(better))];
    var p, p', c := TotalPoints(cs), TotalPoints(raised), TotalCredits(cs);
    TotalsOfUpdate(cs, k, raised[k]);
    ScaledPointsMonotone(PointOf(cs[k].grade.value), PointOf(better), CreditsValue(cs[k]));
    assert p <= p';
    RealQuotientMonotone(p, p', c);
    RoundHalfEvenMonotone(p, p', c);
  }

  /** The worked example: O with 4 credits and A with 3 give 64 / 7, returned as 9.14. */
  lemma GpaExample()
    ensures Gpa([Course("", Some("O"), Some(4)), Course("", Some("A"), Some(3))]) == 914
  {
    var cs := [Course("", Some("O"), Some(4)), Course("", Some("A"), Some(3))];
    assert cs[..1] == [Course("", Some("O"), Some(4))];
    assert TotalPoints(cs) == 64 && TotalCredits(cs) == 7;
    RoundHalfEvenIsUnique(64, 7, 914);
  }
}
