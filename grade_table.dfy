/**
 * The fixed grade table shared by both copies of the grade engine:
 * O=10, A+=9, A=8, B+=7, B=6, C+=5, C=4.
 */
module GradeTable {

  /** `GRADE_POINTS`: letter grade to grade point. */
  const GradePoints: map<string, int> :=
    map["O" := 10, "A+" := 9, "A" := 8, "B+" := 7, "B" := 6, "C+" := 5, "C" := 4]

  /** The smallest and the largest value in the table. */
  const MinGradePoint: int := 4
  const MaxGradePoint: int := 10

  /** Looking a known grade up gives a point between the table's minimum and maximum. */
  function PointOf(grade: string): (p: int)
    requires grade in GradePoints
    ensures MinGradePoint <= p <= MaxGradePoint
    ensures grade == "O" ==> p == MaxGradePoint
    ensures grade == "C" ==> p == MinGradePoint
  {
    GradePoints[grade]
  }
}
