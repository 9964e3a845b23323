/**
 * The grade engine of the browser copy (`calculateGPA` in script.js). A course
 * counts when its grade is truthy (not the empty string) and its credits are
 * above zero; a counted course adds grade point times credits to the point
 * sum and its credits to the credit sum. The GPA is the quotient rounded to
 * hundredths by `toFixed(2)`, or 0.00 when no credit was summed.
 *
 * GPAs are integers counting hundredths: 914 stands for "9.14".
 */
module JsGradeEngine {
  import opened GradeTable
  import opened Rounding

  /** A grade the page can hold: a key of the table, or the empty string for "no grade". */
  type Grade = g: string | g == "" || g in GradePoints witness ""

  datatype Course = Course(name: string, grade: Grade, credits: int)

  datatype Semester = Semester(courses: seq<Course>)

  /** The guard `course.grade && course.credits > 0`. */
  predicate Counts(c: Course)
    ensures Counts(c) ==> c.grade in GradePoints && c.credits >= 1
  {
    c.grade != "" && c.credits > 0
  }

  /** What one course adds to `totalPoints`. */
  function PointsOf(c: Course): int {
    if Counts(c) then PointOf(c.grade) * c.credits else 0
  }

  /** What one course adds to `totalCredits`. */
  function CreditsOf(c: Course): int {
    if Counts(c) then c.credits else 0
  }

  /** `totalPoints` once every course of `cs` has been visited, in order. */
  function TotalPoints(cs: seq<Course>): int {
    if cs == [] then 0 else TotalPoints(cs[..|cs| - 1]) + PointsOf(cs[|cs| - 1])
  }

  /** `totalCredits` once every course of `cs` has been visited, in order. */
  function TotalCredits(cs: seq<Course>): int {
    if cs == [] then 0 else TotalCredits(cs[..|cs| - 1]) + CreditsOf(cs[|cs| - 1])
  }

  /**
   * The value `calculateGPA(cs)` shows, in hundredths: zero without credits,
   * otherwise the hundredth nearest the credit-weighted mean, ties going up.
   */
  function Gpa(cs: seq<Course>): (r: int)
    ensures TotalCredits(cs) <= 0 ==> r == 0
    ensures TotalCredits(cs) > 0 ==>
      2 * (r * TotalCredits(cs)) - TotalCredits(cs) <= 200 * TotalPoints(cs)
                                                     < 2 * (r * TotalCredits(cs)) + TotalCredits(cs)
  {
    if TotalCredits(cs) > 0 then RoundHalfUp(TotalPoints(cs), TotalCredits(cs)) else 0
  }

  /** The exact credit-weighted mean, before rounding. */
  ghost function Unrounded(cs: seq<Course>): real
    requires TotalCredits(cs) > 0
  {
    TotalPoints(cs) as real / TotalCredits(cs) as real
  }

  /** Every semester's courses, one after another. */
  function Flatten(doc: seq<Semester>): seq<Course> {
    if doc == [] then [] else Flatten(doc[..|doc| - 1]) + doc[|doc| - 1].courses
  }

  /** `calculateGPA`: one pass over the courses, summing points and credits. */
  method CalculateGpa(courses: seq<Course>) returns (gpa: int)
    ensures gpa == Gpa(courses)
  {
    var totalPoints := 0;
    var totalCredits := 0;
    for i := 0 to |courses|
      invariant totalPoints == TotalPoints(courses[..i])
      invariant totalCredits == TotalCredits(courses[..i])
    {
      var course := courses[i];
      if course.grade != "" && course.credits > 0 {
        totalPoints := totalPoints + PointOf(course.grade) * course.credits;
        totalCredits := totalCredits + course.credits;
      }
      assert courses[..i + 1] == courses[..i] + [course];
      TotalsOfSnoc(courses[..i], course);
    }
    assert courses[..|courses|] == courses;
    gpa := if totalCredits > 0 then RoundHalfUp(totalPoints, totalCredits) else 0;
  }

  // ---------------------------------------------------------------------
  // Properties of the sums

  /** Visiting one more course adds exactly that course's share to each sum. */
  lemma TotalsOfSnoc(cs: seq<Course>, c: Course)
    ensures TotalPoints(cs + [c]) == TotalPoints(cs) + PointsOf(c)
    ensures TotalCredits(cs + [c]) == TotalCredits(cs) + CreditsOf(c)
  {
    assert (cs + [c])[..|cs|] == cs;
  }

  /** Both sums split over a concatenation. */
  lemma {:induction false} TotalsOfConcat(a: seq<Course>, b: seq<Course>)
    ensures TotalPoints(a + b) == TotalPoints(a) + TotalPoints(b)
    ensures TotalCredits(a + b) == TotalCredits(a) + TotalCredits(b)
  {
    if b == [] {
      assert a + b == a;
    } else {
      var b' := b[..|b| - 1];
      assert (a + b)[..|a + b| - 1] == a + b';
      assert (a + b)[|a + b| - 1] == b[|b| - 1];
      TotalsOfConcat(a, b');
    }
  }

  /** The credit sum is never negative. */
  lemma {:induction false} TotalCreditsNonNegative(cs: seq<Course>)
    ensures TotalCredits(cs) >= 0
  {
    if cs != [] {
      TotalCreditsNonNegative(cs[..|cs| - 1]);
    }
  }

  /** Some credit is summed exactly when some course passes the guard. */
  lemma {:induction false} CreditsIffSomeCourseCounts(cs: seq<Course>)
    ensures TotalCredits(cs) > 0 <==> exists k :: 0 <= k < |cs| && Counts(cs[k])
  {
    if cs != [] {
      var init := cs[..|cs| - 1];
      CreditsIffSomeCourseCounts(init);
      TotalCreditsNonNegative(init);
      if exists k :: 0 <= k < |init| && Counts(init[k]) {
        var k :| 0 <= k < |init| && Counts(init[k]);
        assert cs[k] == init[k];
      }
      if exists k :: 0 <= k < |cs| && Counts(cs[k]) {
        var k :| 0 <= k < |cs| && Counts(cs[k]);
        if k < |init| {
          assert init[k] == cs[k];
        }
      }
    }
  }

  /**
   * Only counted courses move either sum: putting a course that fails the
   * guard anywhere into the list leaves both sums as they were.
   */
  lemma CourseFailingGuardAddsNothing(before: seq<Course>, c: Course, after: seq<Course>)
    requires !Counts(c)
    ensures TotalPoints(before + [c] + after) == TotalPoints(before + after)
    ensures TotalCredits(before + [c] + after) == TotalCredits(before + after)
    ensures Gpa(before + [c] + after) == Gpa(before + after)
  {
    TotalsOfConcat(before + [c], after);
    TotalsOfConcat(before, [c]);
    TotalsOfConcat(before, after);
    assert [c][..0] == [];
  }

  /**
   * Counted courses carry between the lowest and the highest grade point per
   * credit, so the point sum lies between 4 and 10 times the credit sum.
   */
  lemma {:induction false} PointsWithinTableRange(cs: seq<Course>)
    ensures MinGradePoint * TotalCredits(cs) <= TotalPoints(cs) <= MaxGradePoint * TotalCredits(cs)
  {
    if cs != [] {
      PointsWithinTableRange(cs[..|cs| - 1]);
      var c := cs[|cs| - 1];
      if Counts(c) {
        var p := PointOf(c.grade);
        assert MinGradePoint * c.credits <= p * c.credits <= MaxGradePoint * c.credits;
      }
    }
  }

  // ---------------------------------------------------------------------
  // Properties of the GPA

  /** `calculateGPA` shows 0.00 exactly when no course has a grade and positive credits. */
  lemma GpaZeroIffNothingCounts(cs: seq<Course>)
    ensures Gpa(cs) == 0 <==> forall k :: 0 <= k < |cs| ==> !Counts(cs[k])
  {
    CreditsIffSomeCourseCounts(cs);
    TotalCreditsNonNegative(cs);
    if TotalCredits(cs) > 0 {
      GpaWithinTableRange(cs);
    }
  }

  /** An empty course list shows 0.00. */
  lemma GpaOfNoCourses()
    ensures Gpa([]) == 0
  {
  }

  /**
   * Once a course counts, the exact mean lies between the table's lowest and
   * highest grade point, and so does the shown value.
   */
  lemma GpaWithinTableRange(cs: seq<Course>)
    requires TotalCredits(cs) > 0
    ensures MinGradePoint as real <= Unrounded(cs) <= MaxGradePoint as real
    ensures 100 * MinGradePoint <= Gpa(cs) <= 100 * MaxGradePoint
  {
    var p, c := TotalPoints(cs), TotalCredits(cs);
    PointsWithinTableRange(cs);
    RealQuotientBounds(p, c, MinGradePoint, MaxGradePoint);
    RoundingExactHundredths(MinGradePoint, c);
    RoundingExactHundredths(MaxGradePoint, c);
    RoundHalfUpMonotone(MinGradePoint * c, p, c);
    RoundHalfUpMonotone(p, MaxGradePoint * c, c);
  }

  /** Changing one course changes each sum by that course's own difference. */
  lemma {:induction false} TotalsOfUpdate(cs: seq<Course>, k: nat, c: Course)
    requires k < |cs|
    ensures TotalPoints(cs[k := c]) == TotalPoints(cs) - PointsOf(cs[k]) + PointsOf(c)
    ensures TotalCredits(cs[k := c]) == TotalCredits(cs) - CreditsOf(cs[k]) + CreditsOf(c)
  {
    var n := |cs| - 1;
    var cs' := cs[k := c];
    if k == n {
      assert cs'[..n] == cs[..n];
    } else {
      assert cs'[..n] == cs[..n][k := c];
      TotalsOfUpdate(cs[..n], k, c);
    }
  }

  /**
   * Raising one counted course to a grade worth at least as much, all else
   * fixed, keeps the credit sum and never lowers the GPA, exact or shown.
   */
  lemma RaisingAGradeNeverLowersGpa(cs: seq<Course>, k: nat, better: Grade)
    requires k < |cs| && Counts(cs[k])
    requires better != "" && PointOf(better) >= PointOf(cs[k].grade)
    ensures TotalCredits(cs[k := cs[k].(grade := better)]) == TotalCredits(cs) > 0
    ensures Unrounded(cs[k := cs[k].(grade := better)]) >= Unrounded(cs)
    ensures Gpa(cs[k := cs[k].(grade := better)]) >= Gpa(cs)
  {
    var raised := cs[k := cs[k].(grade := better)];
    var p, p', c := TotalPoints(cs), TotalPoints(raised), TotalCredits(cs);
    TotalsOfUpdate(cs, k, raised[k]);
    CreditsIffSomeCourseCounts(cs);
    assert 0 <= k < |cs| && Counts(cs[k]);
    ScaledPointsMonotone(PointOf(cs[k].grade), PointOf(better), cs[k].credits);
    assert p <= p';
    RealQuotientMonotone(p, p', c);
    RoundHalfUpMonotone(p, p', c);
  }

  /** The worked example: O with 4 credits and A with 3 give 64 / 7, shown as 9.14. */
  lemma GpaExample()
    ensures Gpa([Course("", "O", 4), Course("", "A", 3)]) == 914
  {
    var cs := [Course("", "O", 4), Course("", "A", 3)];
    assert cs[..1] == [Course("", "O", 4)];
    assert TotalPoints(cs) == 64 && TotalCredits(cs) == 7;
    RoundHalfUpIsUnique(64, 7, 914);
  }
}
