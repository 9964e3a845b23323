# GPA Jotter grade engine and document, in Dafny

GPA Jotter keeps a student's record as a list of semesters, each a list of
courses with a letter grade and a credit weight. It shows a GPA per semester
and a cumulative GPA (CGPA) over all of them. The repository has two copies of
this logic: a browser page (`script.js`) and a Streamlit app
(`gpa_jotter.py`). This project models both copies side by side. It covers
their shared grade table, each copy's GPA and CGPA loops with its own
eligibility guard and rounding, and the edits each copy makes to its document.

Modules, one concept each:

- `GradeTable` (`grade_table.dfy`): the grade table `O=10 … C=4`, shared by both copies.
- `Rounding` (`rounding.dfy`): rounding an exact quotient to hundredths. Half up is `toFixed(2)`; half to even is Python's `round(x, 2)`.
- `Decimal` (`decimal.dfy`): writing an integer in base 10 and reading digits back.
- `JsParseInt` (`js_parse_int.dfy`): `parseInt(value, 10) || 0` as a small parser, following section 19.2.5 of ECMA-262.
- `JsGradeEngine` (`js_grade_engine.dfy`): `calculateGPA`, with the guard "grade truthy and `credits > 0`".
- `JsJotter` (`js_jotter.dfy`): class `Jotter`, the page's `semesters` array and its handlers. It includes `Array.prototype.splice(start, 1)` with its negative and out-of-range indices.
- `PyGradeEngine` (`py_grade_engine.dfy`): `calculate_gpa`, with the guard "grade is a table key and credits non-zero".
- `PySession` (`py_session.dfy`): class `Session`, the session's `semesters` list, the `data_loaded` flag and the button edits.
- `Wrappers` (`wrappers.dfy`): `Option`.

A GPA is an integer count of hundredths: 914 stands for "9.14". Each GPA loop
is a method. Its `ensures` ties the result to the specification function
`Gpa`. Both CGPA methods promise `Gpa(Flatten(semesters))`, so "CGPA is the
GPA of all courses put together" is their contract. The document classes keep
`semesters` as a `seq` of value records. The source builds each of these
records fresh (literals, `JSON.parse`, `json.load`), so no two entries share
an object.

Facts about the two files that the model keeps:

- Neither file gives a course an identifier, and neither backfills one on load.
- Neither grade table has an `N/A` grade.
- The browser copy's semesters carry no name; the Python copy names each one "Semester n".
- The Python guard lets non-zero negative credits through.
- The browser copy rounds half up; the Python copy rounds half to even.

## Model

| member | source | states |
|---|---|---|
| `GradeTable.PointOf` | script.js:3 | a table grade's point lies between 4 (C) and 10 (O) |
| `Rounding.RoundHalfUp` | script.js:26 | the result is within half a hundredth of p / c, and an exact tie goes up |
| `Rounding.RoundHalfUpIsUnique` | script.js:26 | no other hundredth meets that contract |
| `Rounding.RoundHalfUpMonotone` | script.js:26 | with the same divisor, a larger quotient never rounds lower |
| `Rounding.RoundHalfEven` | gpa_jotter.py:35 | the result is within half a hundredth of p / c, and an exact tie goes to the even neighbour |
| `Rounding.RoundHalfEvenIsUnique` | gpa_jotter.py:35 | no other hundredth meets that contract |
| `Rounding.RoundHalfEvenMonotone` | gpa_jotter.py:35 | with the same divisor, a larger quotient never rounds lower |
| `Rounding.RoundingExactHundredths` | script.js:26 | a quotient that is a whole number k rounds to exactly 100·k, under either rule |
| `Decimal.NatToString` | gpa_jotter.py:58 | `str(n)` is a non-empty digit string with no leading zero |
| `Decimal.NatToStringRoundTrip` | gpa_jotter.py:58 | reading `str(n)` back as digits gives n |
| `JsParseInt.ParseInt10` | script.js:109 | `parseInt(value, 10)` is NaN exactly when no digit follows the white space and the optional sign, and it is negative only after a `-` |
| `JsParseInt.CreditsFromText` | script.js:109 | `|| 0` stores 0 for NaN and the parsed integer otherwise |
| `JsParseInt.ParseIntSkipsWhiteSpace` | script.js:109 | leading ECMA-262 white space never changes what `parseInt` reads |
| `JsParseInt.ParseIntReadsLeadingInteger` | script.js:109 | white space, then a decimal integer, then any non-digit text: this parses to that integer and is stored as the credits |
| `JsParseInt.TextWithoutLeadingDigitsGivesZeroCredits` | script.js:109 | text with no digit after its white space and optional sign parses to NaN and stores 0 credits |
| `JsParseInt.BlankTextGivesZeroCredits` | script.js:109 | an empty or all-blank input stores 0 credits |
| `JsGradeEngine.Gpa` | script.js:26 | with no credits the value is 0.00; otherwise it is the hundredth nearest totalPoints / totalCredits, ties going up |
| `JsGradeEngine.Counts` | script.js:21 | a course that passes `course.grade && course.credits > 0` has a table grade and at least one credit |
| `JsGradeEngine.CalculateGpa` | script.js:17-27 | the `forEach` accumulation returns `Gpa` of its courses |
| `JsGradeEngine.TotalsOfSnoc` | script.js:20-25 | visiting one more course adds exactly its share to each sum |
| `JsGradeEngine.TotalsOfConcat` | script.js:20-25 | both sums split over a concatenation of course lists |
| `JsGradeEngine.TotalCreditsNonNegative` | script.js:21-23 | totalCredits is never negative |
| `JsGradeEngine.CreditsIffSomeCourseCounts` | script.js:21-23 | totalCredits > 0 exactly when some course has a truthy grade and credits > 0 |
| `JsGradeEngine.CourseFailingGuardAddsNothing` | script.js:20-24 | adding a course that fails the guard, anywhere, leaves both sums and the GPA unchanged |
| `JsGradeEngine.PointsWithinTableRange` | script.js:22 | 4 · totalCredits ≤ totalPoints ≤ 10 · totalCredits |
| `JsGradeEngine.GpaZeroIffNothingCounts` | script.js:17-26 | the GPA is 0.00 exactly when no course has a truthy grade and credits > 0 (both directions) |
| `JsGradeEngine.GpaOfNoCourses` | script.js:26 | an empty course list gives 0.00 |
| `JsGradeEngine.GpaWithinTableRange` | script.js:22-26 | once a course counts, the exact mean lies in [4, 10] and the shown value in [4.00, 10.00] |
| `JsGradeEngine.TotalsOfUpdate` | script.js:20-24 | replacing one course changes each sum by exactly that course's difference |
| `JsGradeEngine.RaisingAGradeNeverLowersGpa` | script.js:22-26 | giving one counted course a grade worth at least as much keeps totalCredits and never lowers the exact or the shown GPA |
| `JsGradeEngine.GpaExample` | script.js:17-26 | O with 4 credits and A with 3 credits show 9.14 |
| `JsJotter.SpliceStart` | script.js:96 | splice's start index: an index in range is kept, a negative one counts from the end, one past the end becomes the length, and one before the front becomes 0 |
| `JsJotter.SpliceOne` | script.js:95-102 | `splice(start, 1)` removes exactly one element when the array is non-empty and start is below its length, and none otherwise; it never adds an element |
| `JsJotter.SpliceBeforeFrontRemovesFirst` | script.js:96 | a negative start reaching back past the front removes the first element |
| `JsJotter.SpliceRemovesIndex` | script.js:96 | at an index inside the array, splice removes exactly that element and keeps the rest in order |
| `JsJotter.SplicePastEndChangesNothing` | script.js:96 | at or past the end, splice changes nothing |
| `JsJotter.SpliceNegativeCountsFromEnd` | script.js:96 | a negative index −k removes the k-th element from the end |
| `JsJotter.SpliceUndoesPush` | script.js:90-103 | deleting the last element right after a push restores the array |
| `JsJotter.Jotter.constructor` | script.js:14 | `semesters` is declared as the empty array; the start-up `loadFromLocalStorage` that follows is left out |
| `JsJotter.Jotter.CalculateCgpa` | script.js:29-41 | the nested accumulation over every semester returns the GPA of all courses, concatenated in order |
| `JsJotter.Jotter.AddSemester` | script.js:85-88 | appends one semester holding exactly one `{name:'', grade:'O', credits:3}`; the earlier semesters are unchanged |
| `JsJotter.Jotter.AddCourse` | script.js:90-93 | appends exactly one default course to semester i; every other semester is unchanged |
| `JsJotter.Jotter.DeleteSemester` | script.js:95-98 | the document becomes `splice(semIndex, 1)` of itself; an index inside removes exactly that semester; an index past the end changes nothing |
| `JsJotter.Jotter.DeleteCourse` | script.js:100-103 | semester i's courses become `splice(courseIndex, 1)` of themselves; every other semester is unchanged |
| `JsJotter.Jotter.UpdateCourse` | script.js:105-112 | only the chosen field of course (i, j) changes; name and grade store the text; credits store the parsed integer, or 0 when `parseInt` gives NaN |
| `JsJotter.Jotter.ResetAll` | script.js:114-119 | a confirmed reset leaves the document empty; a declined one changes nothing |
| `JsJotter.Jotter.LoadDataFromFile` | script.js:132-148 | for a file that is not JSON, is JSON but not an array, or is an array of semesters: the document is replaced only by the array, and the alert shows only for text that is not JSON |
| `PyGradeEngine.Gpa` | gpa_jotter.py:35 | when total_credits ≤ 0 the value is 0.0, with no division; otherwise it is the hundredth nearest total_points / total_credits, ties to even |
| `PyGradeEngine.Counts` | gpa_jotter.py:30-32 | a course that passes `grade in GRADE_POINTS and credits` has a table grade and a `credits` key |
| `PyGradeEngine.CalculateGpa` | gpa_jotter.py:26-35 | the `for` loop returns `Gpa` of its courses |
| `PyGradeEngine.TotalsOfSnoc` | gpa_jotter.py:29-34 | visiting one more course adds exactly its share to each sum |
| `PyGradeEngine.TotalsOfConcat` | gpa_jotter.py:29-34 | both sums split over a concatenation of course lists |
| `PyGradeEngine.CourseFailingGuardAddsNothing` | gpa_jotter.py:29-34 | a course with a missing or unknown grade, or with missing or zero credits, adds nothing to either sum or to the GPA |
| `PyGradeEngine.PositiveCreditsNeedACountedCourse` | gpa_jotter.py:32-34 | a positive credit sum needs a course that passed the guard with positive credits |
| `PyGradeEngine.PointsWithinTableRange` | gpa_jotter.py:32-34 | when every counted course has positive credits, 4 · total_credits ≤ total_points ≤ 10 · total_credits |
| `PyGradeEngine.GpaOfNoCourses` | gpa_jotter.py:35 | an empty course list gives 0.0 |
| `PyGradeEngine.GpaWithinTableRange` | gpa_jotter.py:32-35 | when every counted course has positive credits and one counts, the exact quotient lies in [4, 10] and the result in [4.00, 10.00] |
| `PyGradeEngine.NegativeCreditsEscapeTableRange` | gpa_jotter.py:32-35 | A with −3 credits beside O with 4 passes the guard and gives 16.00, outside the table's range |
| `PyGradeEngine.TotalsOfUpdate` | gpa_jotter.py:29-34 | replacing one course changes each sum by exactly that course's difference |
| `PyGradeEngine.RaisingAGradeNeverLowersGpa` | gpa_jotter.py:32-35 | giving a counted course with positive credits a grade worth at least as much never lowers the exact or the returned GPA |
| `PyGradeEngine.GpaExample` | gpa_jotter.py:26-35 | O with 4 credits and A with 3 credits give 9.14 |
| `PySession.Session.constructor` | gpa_jotter.py:19-23 | a new session has no semesters and nothing loaded |
| `PySession.Session.CalculateCgpa` | gpa_jotter.py:38-48 | the nested loop over every semester returns `calculate_gpa` of all courses, concatenated in order |
| `PySession.Session.AddSemester` | gpa_jotter.py:57-58 | appends `{"name": "Semester n+1", "courses": []}`, where n is the prior count; the earlier semesters are unchanged |
| `PySession.Session.LoadUploaded` | gpa_jotter.py:65-69 | the first upload replaces the document and sets the flag; after that an upload changes nothing |
| `PySession.Session.ResetAll` | gpa_jotter.py:72-74 | leaves the semester list empty |
| `PySession.Session.WriteBackCourse` | gpa_jotter.py:81-86 | course (i, j) becomes the widget values; every other course and semester is unchanged |
| `PySession.Session.DeleteCourse` | gpa_jotter.py:88-90 | removes exactly course j of semester i; every other semester is unchanged |
| `PySession.Session.AddCourse` | gpa_jotter.py:92-93 | appends exactly `{"name": "", "grade": "O", "credits": 3}` to semester i only |
| `PySession.PopAt` | gpa_jotter.py:89 | `pop(j)` leaves one element fewer, and the multiset loses exactly element j |
| `PySession.SemesterName` | gpa_jotter.py:58 | the name is "Semester " followed by digits with no leading zero that read back as the prior count plus one, the form `str(n + 1)` takes |
| `PySession.PopRemovesExactlyOne` | gpa_jotter.py:89 | `pop(j)` keeps every other course in order and removes only course j |
| `PySession.PopUndoesAppend` | gpa_jotter.py:89-93 | popping the last course right after an append restores the list |
| `PySession.FirstSemesterName` | gpa_jotter.py:58 | the first semester added to an empty session is named "Semester 1" |

## Left out

- Rendering and event dispatch (script.js:44-82 and 162-200) are UI only. This includes the `parseInt` of the `data-*` indices.
- The Streamlit widgets, columns, expanders and `experimental_rerun` (gpa_jotter.py:14-16 and 51-90) are UI framework calls. The values the widgets hand back become parameters of `WriteBackCourse` and `LoadUploaded`.
- Persistence is I/O and foreign parsing, so it is left out. That covers `localStorage` (script.js:150-160), file saving (script.js:121-130, gpa_jotter.py:61-62), `FileReader` and `JSON.parse`, and `json.load`. A load receives the already-parsed value.
- `loadFromLocalStorage` replaces the document without the array guard (script.js:155-160). It is left out with the rest of `localStorage`, including its call at start-up (script.js:198), so the model's page starts from the empty array of script.js:14 rather than the stored document.
- `confirm` and `alert` are dialogs. The user's answer is a parameter of `ResetAll`, and the alert is the result of `LoadDataFromFile`.
- Floating point is left out. Both GPA functions give integer hundredths of the exact quotient, not a float or the string `toFixed(2)` makes. A binary tie that the float would round differently is not modelled. The sums are unbounded integers, whereas doubles are exact only up to 2^53.
- `JsGradeEngine.Course`: a truthy grade outside the table would make `GRADE_POINTS[grade]` `undefined` and the GPA `NaN`. The model's `Grade` type excludes this case, because the grade `<select>` offers only table keys.
- `JsJotter.Jotter.UpdateCourse`: for the grade field it requires the text to be a table key or empty, for the same reason.
- Both copies receive loaded files of any shape, such as credits given as strings or floats, or a missing `courses` field. The model types the document, so such files cannot be expressed.
- `JsJotter.Jotter.LoadDataFromFile`: the browser's `try` also wraps `semesters = data; render();` (script.js:137-145). A JSON array whose entries are not semesters, such as `[1]` or `[{}]`, is therefore stored first; `render` then throws in `calculateGPA` (script.js:47 calling script.js:20), the `catch` shows the alert, and the page keeps the replaced, unrendered document. `Parsed` has no such array, so the model does not capture this "replaced and alerted" outcome.
- The browser copy throws a `TypeError` when given an index with no semester or course. `AddCourse`, `DeleteCourse` and `UpdateCourse` require valid indices, as the rendered buttons always supply.
- The Python `pop(j)` raises `IndexError` outside the list, and its negative indices count from the end. `DeleteCourse` requires `0 <= j < len`, since `enumerate` supplies j.
- `JsParseInt.ParseInt10` gives the exact integer value. `parseInt`'s rounding of more than 20 significant digits to a double is not modelled, nor is the sign of `-0`, which `|| 0` erases anyway. Characters are Unicode scalar values, not UTF-16 code units; every white-space character involved lies in the Basic Multilingual Plane.
- The Python select box raises `ValueError` for a grade outside the table (gpa_jotter.py:84). This is UI and is not modelled.
- `PySession.Session.WriteBackCourse`: the credits `number_input` (gpa_jotter.py:86, `min_value=1`, `max_value=10`) rejects a stored value outside 1..10, such as the 0 the browser copy can save or the -3 of `PyGradeEngine.NegativeCreditsEscapeTableRange`, when the page is drawn. The model takes the widget values as parameters, so it cannot show this failure.
- Course-identifier generation, identifier backfill and document normalisation on load are in neither file, so they are not part of this model.
