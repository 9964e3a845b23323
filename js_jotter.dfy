/**
 * The page state of the browser copy (script.js): the `semesters` array and
 * the handlers that edit it in place with `push`, `splice` and field
 * assignment, plus `calculateCGPA`, which reads it.
 */
module JsJotter {
  import opened GradeTable
  import opened Rounding
  import opened JsGradeEngine
  import opened JsParseInt

  /** The course every "add" creates: `{ name: '', grade: 'O', credits: 3 }`. */
  const DefaultCourse: Course := Course("", "O", 3)

  /** The course field an input event edits. */
  datatype Field = NameField | GradeField | CreditsField

  /** What `JSON.parse` made of a chosen file. */
  datatype Parsed = SyntaxError | NotAnArray | AnArray(doc: seq<Semester>)

  /** The file input's state when it fires: no file chosen, or a file whose text was parsed. */
  datatype FileChoice = NoFile | Chosen(parsed: Parsed)

  /**
   * Where `splice(start, 1)` starts on an array of length `len`: a negative
   * start counts from the end, and both ends are clamped.
   */
  function SpliceStart(len: nat, start: int): (a: nat)
    ensures a <= len
    ensures 0 <= start <= len ==> a == start
    ensures 0 - len <= start < 0 ==> a == len + start
    ensures start > len ==> a == len
    ensures start < 0 - len ==> a == 0
  {
    if start < 0 then (if len + start < 0 then 0 else len + start)
    else if start < len then start else len
  }

  /** `Array.prototype.splice(start, 1)` of ECMA-262, as the sequence it leaves. */
  function SpliceOne<T>(s: seq<T>, start: int): (r: seq<T>)
    ensures |r| == if s != [] && start < |s| then |s| - 1 else |s|
    ensures multiset(r) <= multiset(s)
  {
    var a := SpliceStart(|s|, start);
    if a < |s| then
      assert s == s[..a] + [s[a]] + s[a + 1..];
      s[..a] + s[a + 1..]
    else s
  }

  /** At an index inside the array, splice removes exactly that element and keeps the rest in order. */
  lemma SpliceRemovesIndex<T>(s: seq<T>, i: int)
    requires 0 <= i < |s|
    ensures |SpliceOne(s, i)| == |s| - 1
    ensures forall k :: 0 <= k < i ==> SpliceOne(s, i)[k] == s[k]
    ensures forall k :: i <= k < |s| - 1 ==> SpliceOne(s, i)[k] == s[k + 1]
    ensures multiset(SpliceOne(s, i)) + multiset{s[i]} == multiset(s)
  {
    assert s == s[..i] + [s[i]] + s[i + 1..];
  }

  /** At or past the end, splice changes nothing. */
  lemma SplicePastEndChangesNothing<T>(s: seq<T>, i: int)
    requires i >= |s|
    ensures SpliceOne(s, i) == s
  {
  }

  /** A negative index counts back from the end. */
  lemma SpliceNegativeCountsFromEnd<T>(s: seq<T>, i: int)
    requires -|s| <= i < 0
    ensures SpliceOne(s, i) == SpliceOne(s, |s| + i)
  {
  }

  /** A negative index reaching back past the front removes the first element. */
  lemma SpliceBeforeFrontRemovesFirst<T>(s: seq<T>, i: int)
    requires s != [] && i < -|s|
    ensures SpliceOne(s, i) == s[1..]
  {
  }

  /** Splicing out the last element undoes a `push`. */
  lemma SpliceUndoesPush<T>(s: seq<T>, x: T)
    ensures SpliceOne(s + [x], |s|) == s
    ensures SpliceOne(s + [x], -1) == s
  {
    assert (s + [x])[..|s|] == s;
  }

  class Jotter {
    /** `semesters`: the document, one entry per semester, in display order. */
    var semesters: seq<Semester>

    constructor ()
      ensures semesters == []
    {
      semesters := [];
    }

    /** `calculateCGPA`: the same accumulation run over every course of every semester. */
    method CalculateCgpa() returns (cgpa: int)
      ensures cgpa == Gpa(Flatten(semesters))
    {
      var totalPoints := 0;
      var totalCredits := 0;
      for i := 0 to |semesters|
        invariant totalPoints == TotalPoints(Flatten(semesters[..i]))
        invariant totalCredits == TotalCredits(Flatten(semesters[..i]))
      {
        var courses := semesters[i].courses;
        ghost var done := Flatten(semesters[..i]);
        assert done + courses[..0] == done;
        for j := 0 to |courses|
          invariant totalPoints == TotalPoints(done + courses[..j])
          invariant totalCredits == TotalCredits(done + courses[..j])
        {
          var course := courses[j];
          if course.grade != "" && course.credits > 0 {
            totalPoints := totalPoints + PointOf(course.grade) * course.credits;
            totalCredits := totalCredits + course.credits;
          }
          assert done + courses[..j + 1] == (done + courses[..j]) + [course];
          TotalsOfSnoc(done + courses[..j], course);
        }
        assert courses[..|courses|] == courses;
        assert semesters[..i + 1][..i] == semesters[..i];
      }
      assert semesters[..|semesters|] == semesters;
      cgpa := if totalCredits > 0 then RoundHalfUp(totalPoints, totalCredits) else 0;
    }

    /** `addSemester`: push one semester holding one default course. */
    method AddSemester()
      modifies this
      ensures semesters == old(semesters) + [Semester([DefaultCourse])]
    {
      semesters := semesters + [Semester([DefaultCourse])];
    }

    /** `addCourse(semIndex)`: push one default course onto that semester only. */
    method AddCourse(semIndex: int)
      requires 0 <= semIndex < |semesters|
      modifies this
      ensures |semesters| == old(|semesters|)
      ensures semesters[semIndex].courses == old(semesters[semIndex].courses) + [DefaultCourse]
      ensures forall k :: 0 <= k < |semesters| && k != semIndex ==> semesters[k] == old(semesters[k])
    {
      var sem := semesters[semIndex];
      semesters := semesters[semIndex := sem.(courses := sem.courses + [DefaultCourse])];
    }

    /** `deleteSemester(semIndex)`: `semesters.splice(semIndex, 1)`. */
    method DeleteSemester(semIndex: int)
      modifies this
      ensures semesters == SpliceOne(old(semesters), semIndex)
      ensures 0 <= semIndex < old(|semesters|) ==>
        semesters == old(semesters[..semIndex]) + old(semesters[semIndex + 1..])
      ensures semIndex >= old(|semesters|) ==> semesters == old(semesters)
    {
      semesters := SpliceOne(semesters, semIndex);
    }

    /** `deleteCourse(semIndex, courseIndex)`: splice one course out of that semester only. */
    method DeleteCourse(semIndex: int, courseIndex: int)
      requires 0 <= semIndex < |semesters|
      modifies this
      ensures |semesters| == old(|semesters|)
      ensures semesters[semIndex].courses == SpliceOne(old(semesters[semIndex].courses), courseIndex)
      ensures forall k :: 0 <= k < |semesters| && k != semIndex ==> semesters[k] == old(semesters[k])
    {
      var sem := semesters[semIndex];
      semesters := semesters[semIndex := sem.(courses := SpliceOne(sem.courses, courseIndex))];
    }

    /**
     * `updateCourse(semIndex, courseIndex, field, value)`: store the input's
     * text in one field of one course; credits store `parseInt(value, 10) || 0`.
     * The grade comes from the grade `<select>`, which offers only table keys.
     */
    method UpdateCourse(semIndex: int, courseIndex: int, field: Field, value: string)
      requires 0 <= semIndex < |semesters|
      requires 0 <= courseIndex < |semesters[semIndex].courses|
      requires field == GradeField ==> value == "" || value in GradePoints
      modifies this
      ensures |semesters| == old(|semesters|)
      ensures forall k :: 0 <= k < |semesters| && k != semIndex ==> semesters[k] == old(semesters[k])
      ensures |semesters[semIndex].courses| == old(|semesters[semIndex].courses|)
      ensures forall k :: 0 <= k < |semesters[semIndex].courses| && k != courseIndex ==>
        semesters[semIndex].courses[k] == old(semesters[semIndex].courses[k])
      ensures semesters[semIndex].courses[courseIndex] ==
        match field
        case NameField => old(semesters[semIndex].courses[courseIndex]).(name := value)
        case GradeField => old(semesters[semIndex].courses[courseIndex]).(grade := value)
        case CreditsField => old(semesters[semIndex].courses[courseIndex]).(credits := CreditsFromText(value))
    {
      var sem := semesters[semIndex];
      var course := sem.courses[courseIndex];
      var updated := match field
        case NameField => course.(name := value)
        case GradeField => course.(grade := value)
        case CreditsField => course.(credits := CreditsFromText(value));
      semesters := semesters[semIndex := sem.(courses := sem.courses[courseIndex := updated])];
    }

    /** `resetAll`: empty the document, if the user confirms. */
    method ResetAll(confirmed: bool)
      modifies this
      ensures semesters == if confirmed then [] else old(semesters)
    {
      if confirmed {
        semesters := [];
      }
    }

    /**
     * `loadDataFromFile` on a well-formed document: replace the document only
     * by a parsed array of semesters; among such files, raise the alert only
     * when the text is not JSON. An array whose entries are not semesters is
     * outside the `Parsed` type (see the README).
     */
    method LoadDataFromFile(file: FileChoice) returns (alerted: bool)
      modifies this
      ensures alerted <==> file == Chosen(SyntaxError)
      ensures file.Chosen? && file.parsed.AnArray? ==> semesters == file.parsed.doc
      ensures !(file.Chosen? && file.parsed.AnArray?) ==> semesters == old(semesters)
    {
      alerted := false;
      if file.Chosen? {
        match file.parsed
        case SyntaxError => alerted := true;
        case NotAnArray =>
        case AnArray(doc) => semesters := doc;
      }
    }
  }
}
