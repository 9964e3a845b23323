/**
 * The session document of the Streamlit copy (gpa_jotter.py): the
 * `semesters` list and the `data_loaded` flag, the edits each button makes to
 * them with `append`, `pop` and item assignment, and `calculate_cgpa`, which
 * reads them.
 */
module PySession {
  import opened Wrappers
  import opened GradeTable
  import opened Rounding
  import opened Decimal
  import opened PyGradeEngine

  /** The course "Add Course" appends: `{"name": "", "grade": "O", "credits": 3}`. */
  const DefaultCourse: Course := Course("", Some("O"), Some(3))

  /** What `list.pop(j)` leaves of a list, for an index inside it. */
  function PopAt<T>(s: seq<T>, j: int): (r: seq<T>)
    requires 0 <= j < |s|
    ensures |r| == |s| - 1
    ensures multiset(r) + multiset{s[j]} == multiset(s)
  {
    assert s == s[..j] + [s[j]] + s[j + 1..];
    s[..j] + s[j + 1..]
  }

  /** The name "Add Semester" gives the semester it appends after `count` others. */
  function SemesterName(count: nat): (name: string)
    ensures |name| > 9 && name[..9] == "Semester "
    ensures AllDigits(name[9..]) && DigitsValue(name[9..]) == count + 1
    ensures name[9] != '0'
  {
    var digits := NatToString(count + 1);
    NatToStringRoundTrip(count + 1);
    assert ("Semester " + digits)[9..] == digits;
    "Semester " + digits
  }

  class Session {
    /** `st.session_state.semesters`. */
    var semesters: seq<Semester>
    /** `st.session_state.data_loaded`: set once a file has been loaded. */
    var dataLoaded: bool

    /** A fresh session: no semesters, nothing loaded. */
    constructor ()
      ensures semesters == [] && !dataLoaded
    {
      semesters := [];
      dataLoaded := false;
    }

    /** `calculate_cgpa`: the same accumulation run over every course of every semester. */
    method CalculateCgpa() returns (cgpa: int)
      ensures cgpa == Gpa(Flatten(semesters))
    {
      var totalPoints := 0;
      var totalCredits := 0;
      for i := 0 to |semesters|
        invariant totalPoints == TotalPoints(Flatten(semesters[..i]))
        invariant totalCredits == TotalCredits(Flatten(semesters[..i]))
      {
        var courses := semesters[i].courses;
        ghost var done := Flatten(semesters[..i]);
        assert done + courses[..0] == done;
        for j := 0 to |courses|
          invariant totalPoints == TotalPoints(done + courses[..j])
          invariant totalCredits == TotalCredits(done + courses[..j])
        {
          var course := courses[j];
          var grade := course.grade;
          var credits := course.credits.GetOr(0);
          if grade.Some? && grade.value in GradePoints && credits != 0 {
            totalPoints := totalPoints + PointOf(grade.value) * credits;
            totalCredits := totalCredits + credits;
          }
          assert done + courses[..j + 1] == (done + courses[..j]) + [course];
          TotalsOfSnoc(done + courses[..j], course);
        }
        assert courses[..|courses|] == courses;
        assert semesters[..i + 1][..i] == semesters[..i];
      }
      assert semesters[..|semesters|] == semesters;
      cgpa := if totalCredits > 0 then RoundHalfEven(totalPoints, totalCredits) else 0;
    }

    /** "Add Semester": append an empty semester named after the new count. */
    method AddSemester()
      modifies this
      ensures semesters == old(semesters) + [Semester(SemesterName(old(|semesters|)), [])]
      ensures dataLoaded == old(dataLoaded)
    {
      semesters := semesters + [Semester(SemesterName(|semesters|), [])];
    }

    /**
     * "Load from File": the first upload replaces the document and sets the
     * flag; later reruns with the file still chosen change nothing.
     */
    method LoadUploaded(upload: Option<seq<Semester>>)
      modifies this
      ensures upload.Some? && !old(dataLoaded) ==> semesters == upload.value && dataLoaded
      ensures !(upload.Some? && !old(dataLoaded)) ==>
        semesters == old(semesters) && dataLoaded == old(dataLoaded)
    {
      if upload.Some? && !dataLoaded {
        semesters := upload.value;
        dataLoaded := true;
      }
    }

    /** "Reset All Data": empty the document; the loaded flag stays as it is. */
    method ResetAll()
      modifies this
      ensures semesters == []
      ensures dataLoaded == old(dataLoaded)
    {
      semesters := [];
    }

    /**
     * The widgets writing back into course (i, j): the text input's name, the
     * select box's grade (always a table key) and the number input's credits
     * (always 1 to 10).
     */
    method WriteBackCourse(i: int, j: int, name: string, grade: string, credits: int)
      requires 0 <= i < |semesters| && 0 <= j < |semesters[i].courses|
      requires grade in GradePoints && 1 <= credits <= 10
      modifies this
      ensures |semesters| == old(|semesters|)
      ensures forall k :: 0 <= k < |semesters| && k != i ==> semesters[k] == old(semesters[k])
      ensures semesters[i].name == old(semesters[i].name)
      ensures |semesters[i].courses| == old(|semesters[i].courses|)
      ensures forall k :: 0 <= k < |semesters[i].courses| && k != j ==>
        semesters[i].courses[k] == old(semesters[i].courses[k])
      ensures semesters[i].courses[j] == Course(name, Some(grade), Some(credits))
      ensures dataLoaded == old(dataLoaded)
    {
      var sem := semesters[i];
      var course := Course(name, Some(grade), Some(credits));
      semesters := semesters[i := sem.(courses := sem.courses[j := course])];
    }

    /** The delete button of course (i, j): `semester["courses"].pop(j)`. */
    method DeleteCourse(i: int, j: int)
      requires 0 <= i < |semesters| && 0 <= j < |semesters[i].courses|
      modifies this
      ensures |semesters| == old(|semesters|)
      ensures forall k :: 0 <= k < |semesters| && k != i ==> semesters[k] == old(semesters[k])
      ensures semesters[i].name == old(semesters[i].name)
      ensures semesters[i].courses == PopAt(old(semesters[i].courses), j)
      ensures dataLoaded == old(dataLoaded)
    {
      var sem := semesters[i];
      semesters := semesters[i := sem.(courses := PopAt(sem.courses, j))];
    }

    /** "Add Course" of semester i: append one default course to that semester only. */
    method AddCourse(i: int)
      requires 0 <= i < |semesters|
      modifies this
      ensures |semesters| == old(|semesters|)
      ensures forall k :: 0 <= k < |semesters| && k != i ==> semesters[k] == old(semesters[k])
      ensures semesters[i].name == old(semesters[i].name)
      ensures semesters[i].courses == old(semesters[i].courses) + [DefaultCourse]
      ensures dataLoaded == old(dataLoaded)
    {
      var sem := semesters[i];
      semesters := semesters[i := sem.(courses := sem.courses + [DefaultCourse])];
    }
  }

  /** Removing one course keeps every other course, in order, and only that one goes. */
  lemma PopRemovesExactlyOne<T>(cs: seq<T>, j: int)
    requires 0 <= j < |cs|
    ensures |PopAt(cs, j)| == |cs| - 1
    ensures forall k :: 0 <= k < j ==> PopAt(cs, j)[k] == cs[k]
    ensures forall k :: j <= k < |cs| - 1 ==> PopAt(cs, j)[k] == cs[k + 1]
    ensures multiset(PopAt(cs, j)) + multiset{cs[j]} == multiset(cs)
  {
    assert cs == cs[..j] + [cs[j]] + cs[j + 1..];
  }

  /** Popping the last element undoes an `append`. */
  lemma PopUndoesAppend<T>(s: seq<T>, x: T)
    ensures PopAt(s + [x], |s|) == s
  {
    assert (s + [x])[..|s|] == s;
  }

  /** The first semester added to an empty session is "Semester 1". */
  lemma FirstSemesterName()
    ensures SemesterName(0) == "Semester 1"
  {
  }
}
