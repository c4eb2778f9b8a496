/**
 * The four transactional operations on the records store: batch enrollment,
 * grade registration with a full recomputation of the student's standing,
 * withdrawal, and graduation. Each runs as one transaction: on any error the
 * session is aborted, which the model states as "nothing changes".
 */
module Transactions {
  import opened Schema
  import opened Queries
  import opened Validations
  import opened Standing

  /** The credits a student must have completed to graduate. */
  const RequiredCredits: int := 160

  /** The passing threshold of a final grade (inclusive). */
  const PassingGrade: real := 3.0

  /** Why an operation was aborted. */
  datatype Error =
    | StudentNotFound                                // no student with that code
    | UniquenessFailed(course: string)               // batch: the course is passed, or already in progress this period
    | PrerequisitesFailed(course: string)            // batch: unknown course or unmet prerequisite
    | RecordsNotFound                                // grade: enrollment, student or course missing
    | NotInProgress                                  // grade: the enrollment found is not "Cursando"
    | SchemaRejected                                 // grade: the updated enrollment breaks the collection validator
    | AverageRejected                                // grade: the recomputed average is NaN, which the student validator refuses
    | EnrollmentNotActive                            // withdrawal: no "Cursando" enrollment for the triple
    | AlreadyGraduated                               // graduation: status already "Graduado"
    | InsufficientCredits(required: int, completed: int)

  datatype Result<T> = Ok(value: T) | Err(error: Error)

  /** What a successful grade registration reports: the new status and the new average. */
  datatype Graded = Graded(status: string, average: real)

  /** The status a final grade gives. */
  function FinalStatus(grade: real): (st: string)
    ensures st == Passed || st == Failed
    ensures st == Passed <==> grade >= PassingGrade
  {
    if grade >= PassingGrade then Passed else Failed
  }

  /** The lookup of grade registration: the enrollment for the triple, whatever its status. */
  function TripleFilter(student: string, course: string, period: string): Filter {
    Filter(Some(student), Some(course), Some(period), None)
  }

  /** The record the batch prepares for one course code. */
  function NewEnrollment(student: string, period: string, course: string, date: Date): Enrollment {
    Enrollment(student, course, period, date, InProgress, Null, [])
  }

  /** The records the batch prepares, one per listed code, in list order. */
  function NewEnrollments(student: string, period: string, codes: seq<string>, date: Date): (r: seq<Enrollment>)
    ensures |r| == |codes|
    ensures forall j :: 0 <= j < |codes| ==> r[j] == NewEnrollment(student, period, codes[j], date)
  {
    if codes == [] then []
    else NewEnrollments(student, period, codes[..|codes| - 1], date) + [NewEnrollment(student, period, codes[|codes| - 1], date)]
  }

  /** The error the batch reports for a code that fails: uniqueness is checked before prerequisites. */
  function CheckFailure(courses: map<string, Course>, es: seq<Enrollment>, student: string, period: string, code: string): Error {
    if !IsEnrollmentUnique(es, student, code, period) then UniquenessFailed(code) else PrerequisitesFailed(code)
  }

  /** The position of the first listed code that cannot be enrolled, if there is one. */
  function FirstFailing(courses: map<string, Course>, es: seq<Enrollment>, student: string, period: string, codes: seq<string>)
    : (r: Option<nat>)
    ensures r.None? <==> forall j :: 0 <= j < |codes| ==> CanEnroll(courses, es, student, codes[j], period)
    ensures r.Some? ==>
      && r.value < |codes|
      && (forall k :: 0 <= k < r.value ==> CanEnroll(courses, es, student, codes[k], period))
      && !CanEnroll(courses, es, student, codes[r.value], period)
  {
    if codes == [] then None
    else if !CanEnroll(courses, es, student, codes[0], period) then Some(0)
    else
      match FirstFailing(courses, es, student, period, codes[1..])
      case None => None
      case Some(j) => Some(j + 1)
  }

  /**
   * The outcome of the validation loop of a batch, run against the store as it was
   * before the batch: the failure of the first code that cannot be enrolled, if any.
   */
  function BatchFailure(courses: map<string, Course>, es: seq<Enrollment>, student: string, period: string, codes: seq<string>)
    : (r: Option<Error>)
    ensures r.None? <==> forall j :: 0 <= j < |codes| ==> CanEnroll(courses, es, student, codes[j], period)
    ensures r.Some? ==>
      exists j :: 0 <= j < |codes|
        && (forall k :: 0 <= k < j ==> CanEnroll(courses, es, student, codes[k], period))
        && !CanEnroll(courses, es, student, codes[j], period)
        && r.value == CheckFailure(courses, es, student, period, codes[j])
  {
    match FirstFailing(courses, es, student, period, codes)
    case None => None
    case Some(j) => Some(CheckFailure(courses, es, student, period, codes[j]))
  }

  /** When every code before `i` passes and code `i` fails, the batch reports the failure of code `i`. */
  lemma FailureAt(courses: map<string, Course>, es: seq<Enrollment>, student: string, period: string, codes: seq<string>, i: nat)
    requires i < |codes|
    requires forall k :: 0 <= k < i ==> CanEnroll(courses, es, student, codes[k], period)
    requires !CanEnroll(courses, es, student, codes[i], period)
    ensures BatchFailure(courses, es, student, period, codes) == Some(CheckFailure(courses, es, student, period, codes[i]))
  {
  }

  /** Every document a query returns from a valid collection has its grade in range. */
  lemma FoundGradesInRange(es: seq<Enrollment>, f: Filter)
    requires EnrollmentsWellFormed(es)
    ensures GradesInRange(Find(es, f))
  {
  }

  /**
   * Grading an enrollment leaves it the first match of the triple lookup, and no
   * longer "Cursando": a second registration for the same triple is refused.
   */
  lemma RegradeRefused(es: seq<Enrollment>, student: string, course: string, period: string, grade: real)
    requires FindOne(es, TripleFilter(student, course, period)).Some?
    ensures
      var i := FindOne(es, TripleFilter(student, course, period)).value;
      var es' := es[i := es[i].(status := FinalStatus(grade), finalGrade := Grade(grade))];
      FindOne(es', TripleFilter(student, course, period)) == Some(i) && es'[i].status != InProgress
  {
  }

  /**
   * Withdrawing the first enrollment in progress of a triple removes it from that
   * query: the count drops by one and a later lookup can only find a later record,
   * so with a single such record a second withdrawal is refused.
   */
  lemma WithdrawalConsumesRecord(es: seq<Enrollment>, student: string, course: string, period: string)
    requires FindOne(es, InProgressFilter(student, course, period)).Some?
    ensures
      var f := InProgressFilter(student, course, period);
      var i := FindOne(es, f).value;
      var es' := es[i := es[i].(status := Withdrawn, finalGrade := Grade(0.0))];
      && CountDocuments(es', f) == CountDocuments(es, f) - 1
      && (FindOne(es', f).None? || FindOne(es', f).value > i)
      && (CountDocuments(es, f) == 1 ==> FindOne(es', f).None?)
  {
    var f := InProgressFilter(student, course, period);
    var i := FindOne(es, f).value;
    var es' := es[i := es[i].(status := Withdrawn, finalGrade := Grade(0.0))];
    CountAfterUpdate(es, i, es'[i], f);
    if CountDocuments(es, f) == 1 {
      CountZeroIffNoneMatch(es', f);
    }
  }

  /** A change to records that are not finalized, before or after, leaves every student's recomputation as it was. */
  lemma StandingUnaffected(es: seq<Enrollment>, i: nat, e: Enrollment, student: string)
    requires i < |es|
    requires es[i].status != Passed && es[i].status != Failed
    requires e.status != Passed && e.status != Failed
    ensures Find(es[i := e], FinalizedFilter(student)) == Find(es, FinalizedFilter(student))
  {
    FindAfterUnmatchedUpdate(es, i, e, FinalizedFilter(student));
  }

  /** The records a batch prepares satisfy the `inscripciones` validator, so appending them keeps it satisfied. */
  lemma BatchWellFormed(es: seq<Enrollment>, student: string, period: string, codes: seq<string>, date: Date)
    requires EnrollmentsWellFormed(es)
    ensures EnrollmentsWellFormed(es + NewEnrollments(student, period, codes, date))
  {
  }

  /** A batch adds only records in progress, so no student's recomputation changes. */
  lemma BatchKeepsStandings(students: map<string, Student>, courses: map<string, Course>,
                            es: seq<Enrollment>, student: string, period: string, codes: seq<string>, date: Date)
    requires AllStandingsConsistent(students, es, courses)
    ensures AllStandingsConsistent(students, es + NewEnrollments(student, period, codes, date), courses)
  {
    var batch := NewEnrollments(student, period, codes, date);
    forall k | k in students
      ensures StandingConsistent(students[k], es + batch, courses)
    {
      var f := FinalizedFilter(students[k].code);
      forall j | 0 <= j < |batch|
        ensures !Matches(batch[j], f)
      {
        assert batch[j].status == InProgress;
        assert InProgress != Passed && InProgress != Failed;
      }
      FindAfterUnmatchedAppend(es, batch, f);
      assert StandingConsistent(students[k], es, courses);
    }
  }

  /** A finalized record of `student` leaves the recomputation of every other student as it was. */
  lemma GradeKeepsOtherStandings(students: map<string, Student>, courses: map<string, Course>,
                                 es: seq<Enrollment>, i: nat, graded: Enrollment, student: string)
    requires StudentsWellFormed(students)
    requires i < |es| && es[i].studentCode == student && graded.studentCode == student
    requires AllStandingsConsistent(students, es, courses)
    ensures forall k :: k in students && k != student ==> StandingConsistent(students[k], es[i := graded], courses)
  {
    forall k | k in students && k != student
      ensures StandingConsistent(students[k], es[i := graded], courses)
    {
      assert students[k].code == k;
      FindAfterUnmatchedUpdate(es, i, graded, FinalizedFilter(k));
      assert StandingConsistent(students[k], es, courses);
    }
  }

  /** Some finalized enrollment of the student has no `calificacion_final` field. */
  predicate FinalizedWithoutGrade(es: seq<Enrollment>, student: string) {
    exists j :: 0 <= j < |es| && Matches(es[j], FinalizedFilter(student)) && es[j].finalGrade.Absent?
  }

  /**
   * A record that the recomputation finds without its grade, after record `i` was
   * given one, was already a finalized record of the student without a grade.
   */
  lemma AbsentFoundWasStored(es: seq<Enrollment>, i: nat, graded: Enrollment, student: string)
    requires i < |es| && graded.finalGrade.Grade?
    ensures HasAbsentGrade(Find(es[i := graded], FinalizedFilter(student))) ==> FinalizedWithoutGrade(es, student)
  {
    var f := FinalizedFilter(student);
    var es' := es[i := graded];
    var items := Find(es', f);
    if HasAbsentGrade(items) {
      FindSound(es', f);
      var k :| 0 <= k < |items| && items[k].finalGrade.Absent?;
      assert items[k] in es';
      var j :| 0 <= j < |es'| && es'[j] == items[k];
      assert j != i;
      assert Matches(es[j], f) && es[j].finalGrade.Absent?;
    }
  }

  /**
   * Once record `i`, in progress and of a catalogued course, is finalized, the
   * recomputation counts at least that course's credits, so the fallback to the new
   * grade is never taken; and the average written back is NaN exactly when another
   * finalized record of the student lacks its grade.
   */
  lemma GradedCourseCounted(courses: map<string, Course>, es: seq<Enrollment>, i: nat, grade: real)
    requires PositiveCredits(courses)
    requires i < |es| && es[i].status == InProgress && es[i].courseCode in courses
    ensures
      var student := es[i].studentCode;
      var items := Find(es[i := es[i].(status := FinalStatus(grade), finalGrade := Grade(grade))], FinalizedFilter(student));
      && TotalCredits(items, courses) >= 1
      && (AverageWritten(items, courses, grade).NaN? <==> FinalizedWithoutGrade(es, student))
  {
    var student := es[i].studentCode;
    var f := FinalizedFilter(student);
    var es' := es[i := es[i].(status := FinalStatus(grade), finalGrade := Grade(grade))];
    var items := Find(es', f);
    FindComplete(es', f);
    assert es'[i] in items;
    NoCreditsIffUncatalogued(items, courses);
    AverageWrittenIsRecomputed(items, courses, grade);
    AbsentFoundWasStored(es, i, es'[i], student);
    if FinalizedWithoutGrade(es, student) {
      var j :| 0 <= j < |es| && Matches(es[j], f) && es[j].finalGrade.Absent?;
      assert InProgress != Passed && InProgress != Failed;
      assert j != i;
      assert es'[j] in items;
    }
  }

  /** The recomputed standing is consistent with the enrollments it was computed from, and valid. */
  lemma RecomputedStandingConsistent(st: Student, courses: map<string, Course>, es: seq<Enrollment>, grade: real)
    requires WellFormedStudent(st) && CoursesWellFormed(courses) && EnrollmentsWellFormed(es) && InGradeRange(grade)
    requires !HasAbsentGrade(Find(es, FinalizedFilter(st.code)))
    ensures
      var items := Find(es, FinalizedFilter(st.code));
      var st' := st.(average := RecomputedAverage(items, courses, grade), credits := TotalCredits(items, courses));
      WellFormedStudent(st') && StandingConsistent(st', es, courses)
  {
    var items := Find(es, FinalizedFilter(st.code));
    FoundGradesInRange(es, FinalizedFilter(st.code));
    RecomputedAverageInRange(items, courses, grade);
    StandingUpdateWellFormed(st, RecomputedAverage(items, courses, grade), TotalCredits(items, courses));
  }

  /**
   * Grading record `i` of a student and writing back the recomputed standing keeps
   * the store valid, makes that student's standing consistent, and leaves every
   * other student's consistency as it was.
   */
  lemma GradePreserves(students: map<string, Student>, courses: map<string, Course>, professors: map<string, Professor>,
                       es: seq<Enrollment>, i: nat, student: string, grade: real,
                       students': map<string, Student>, es': seq<Enrollment>)
    requires WellFormedDb(students, courses, professors, es)
    requires i < |es| && es[i].studentCode == student && student in students && InGradeRange(grade)
    requires !FinalizedWithoutGrade(es, student)
    requires es' == es[i := es[i].(status := FinalStatus(grade), finalGrade := Grade(grade))]
    requires
      var items := Find(es', FinalizedFilter(student));
      students' == students[student := students[student].(
                     average := RecomputedAverage(items, courses, grade),
                     credits := TotalCredits(items, courses))]
    ensures WellFormedDb(students', courses, professors, es')
    ensures student in students' && StandingConsistent(students'[student], es', courses)
    ensures AllStandingsConsistent(students, es, courses) ==> AllStandingsConsistent(students', es', courses)
  {
    var graded := es'[i];
    var st := students[student];
    FinalizeWellFormed(es[i], FinalStatus(grade), grade);
    assert EnrollmentsWellFormed(es');
    assert st.code == student;
    AbsentFoundWasStored(es, i, graded, student);
    RecomputedStandingConsistent(st, courses, es', grade);
    assert StudentsWellFormed(students');
    if AllStandingsConsistent(students, es, courses) {
      GradeKeepsOtherStandings(students, courses, es, i, graded, student);
    }
  }

  /** Withdrawing a record in progress keeps the store valid and every standing consistent. */
  lemma WithdrawPreserves(students: map<string, Student>, courses: map<string, Course>, professors: map<string, Professor>,
                          es: seq<Enrollment>, i: nat)
    requires WellFormedDb(students, courses, professors, es)
    requires i < |es| && es[i].status == InProgress
    ensures
      var es' := es[i := es[i].(status := Withdrawn, finalGrade := Grade(0.0))];
      && WellFormedDb(students, courses, professors, es')
      && (AllStandingsConsistent(students, es, courses) ==> AllStandingsConsistent(students, es', courses))
  {
    var es' := es[i := es[i].(status := Withdrawn, finalGrade := Grade(0.0))];
    FinalizeWellFormed(es[i], Withdrawn, 0.0);
    assert EnrollmentsWellFormed(es');
    if AllStandingsConsistent(students, es, courses) {
      forall k | k in students
        ensures StandingConsistent(students[k], es', courses)
      {
        StandingUnaffected(es, i, es'[i], students[k].code);
        assert StandingConsistent(students[k], es, courses);
      }
    }
  }

  /** Graduating a student keeps the store valid and every standing consistent. */
  lemma GraduatePreserves(students: map<string, Student>, courses: map<string, Course>, professors: map<string, Professor>,
                          es: seq<Enrollment>, student: string, date: Date)
    requires WellFormedDb(students, courses, professors, es)
    requires student in students
    ensures
      var students' := students[student := students[student].(status := Graduated, graduationDate := Some(date))];
      && WellFormedDb(students', courses, professors, es)
      && (AllStandingsConsistent(students, es, courses) ==> AllStandingsConsistent(students', es, courses))
  {
  }

  /**
   * The recomputation loop of grade registration: sum the credits and the
   * credit-weighted grades of the items, then divide, falling back to the new
   * grade when no credit was counted.
   */
  method RecomputeStanding(items: seq<Enrollment>, courses: map<string, Course>, grade: real)
    returns (totalCredits: int, average: Number)
    ensures totalCredits == TotalCredits(items, courses)
    ensures average == AverageWritten(items, courses, grade)
    ensures average.NaN? <==> totalCredits > 0 && HasAbsentGrade(items)
    ensures average.Num? ==> average.value == RecomputedAverage(items, courses, grade)
  {
    var totalWeighted := Num(0.0);
    totalCredits := 0;
    var j := 0;
    while j < |items|
      invariant 0 <= j <= |items|
      invariant totalCredits == TotalCredits(items[..j], courses)
      invariant totalWeighted == WeightedSum(items[..j], courses)
    {
      var item := items[j];
      var credits := if item.courseCode in courses then courses[item.courseCode].credits else 0;
      TotalsStep(items, j, courses);
      totalWeighted := Plus(totalWeighted, Times(item.finalGrade, credits));
      totalCredits := totalCredits + credits;
      j := j + 1;
    }
    assert items[..j] == items;
    average := if totalCredits > 0 then Over(totalWeighted, totalCredits as real) else Num(grade);
    AverageWrittenIsRecomputed(items, courses, grade);
  }

  /** The records store: the four collections the operations read and write. */
  class AcademicStore {
    var students: map<string, Student>
    var courses: map<string, Course>
    var professors: map<string, Professor>
    var enrollments: seq<Enrollment>

    /** Every document satisfies its collection validator. */
    ghost predicate Valid()
      reads this
    {
      WellFormedDb(students, courses, professors, enrollments)
    }

    /** Every student's stored standing agrees with a recomputation from the enrollments. */
    ghost predicate StandingsConsistent()
      reads this
    {
      AllStandingsConsistent(students, enrollments, courses)
    }

    constructor (students: map<string, Student>, courses: map<string, Course>,
                 professors: map<string, Professor>, enrollments: seq<Enrollment>)
      requires WellFormedDb(students, courses, professors, enrollments)
      ensures Valid()
      ensures this.students == students && this.courses == courses
      ensures this.professors == professors && this.enrollments == enrollments
    {
      this.students := students;
      this.courses := courses;
      this.professors := professors;
      this.enrollments := enrollments;
    }

    /**
     * `inscripcionMultipleMaterias_VALIDADA`: enroll the student in every listed
     * course for the period, or in none. Every check runs against the store as it
     * was before the batch, so a code listed twice is enrolled twice.
     */
    method EnrollBatch(studentCode: string, period: string, codes: seq<string>, now: Date) returns (r: Result<nat>)
      requires Valid()
      modifies this
      ensures Valid()
      ensures students == old(students) && courses == old(courses) && professors == old(professors)
      ensures studentCode !in students ==> r == Err(StudentNotFound)
      ensures studentCode in students ==>
        (r.Err? <==> BatchFailure(courses, old(enrollments), studentCode, period, codes).Some?)
      ensures studentCode in students && r.Err? ==>
        BatchFailure(courses, old(enrollments), studentCode, period, codes) == Some(r.error)
      ensures r.Err? ==> enrollments == old(enrollments)
      ensures r.Ok? ==> r.value == |codes|
      ensures r.Ok? ==> enrollments == old(enrollments) + NewEnrollments(studentCode, period, codes, now)
      ensures old(StandingsConsistent()) ==> StandingsConsistent()
    {
      if studentCode !in students {
        return Err(StudentNotFound);
      }
      var es := enrollments;
      var batch: seq<Enrollment> := [];
      var i := 0;
      while i < |codes|
        invariant 0 <= i <= |codes|
        invariant batch == NewEnrollments(studentCode, period, codes[..i], now)
        invariant forall k :: 0 <= k < i ==> CanEnroll(courses, es, studentCode, codes[k], period)
      {
        var code := codes[i];
        if !IsEnrollmentUnique(es, studentCode, code, period) {
          FailureAt(courses, es, studentCode, period, codes, i);
          return Err(UniquenessFailed(code));
        }
        if !PrerequisitesMet(courses, es, code, studentCode) {
          FailureAt(courses, es, studentCode, period, codes, i);
          return Err(PrerequisitesFailed(code));
        }
        batch := batch + [NewEnrollment(studentCode, period, code, now)];
        assert codes[..i + 1][..i] == codes[..i];
        i := i + 1;
      }
      assert codes[..i] == codes;
      BatchWellFormed(es, studentCode, period, codes, now);
      if StandingsConsistent() {
        BatchKeepsStandings(students, courses, es, studentCode, period, codes, now);
      }
      enrollments := es + batch;
      r := Ok(|batch|);
    }

    /**
     * `registrarNotaYActualizarPromedio`: record a final grade on the student's
     * enrollment for the course and period, then rewrite the student's credits and
     * average from all the student's finalized enrollments.
     */
    method RegisterGrade(studentCode: string, courseCode: string, grade: real, period: string) returns (r: Result<Graded>)
      requires Valid()
      modifies this
      ensures Valid()
      ensures courses == old(courses) && professors == old(professors)
      ensures r.Err? ==> students == old(students) && enrollments == old(enrollments)
      ensures
        var found := FindOne(old(enrollments), TripleFilter(studentCode, courseCode, period));
        var present := found.Some? && studentCode in old(students) && courseCode in courses;
        var inProgress := present && old(enrollments)[found.value].status == InProgress;
        var ungraded := FinalizedWithoutGrade(old(enrollments), studentCode);
        && (r == Err(RecordsNotFound) <==> !present)
        && (r == Err(NotInProgress) <==> present && !inProgress)
        && (r == Err(SchemaRejected) <==> inProgress && !InGradeRange(grade))
        && (r == Err(AverageRejected) <==> inProgress && InGradeRange(grade) && ungraded)
        && (r.Ok? <==> inProgress && InGradeRange(grade) && !ungraded)
      ensures r.Ok? ==>
        var i := FindOne(old(enrollments), TripleFilter(studentCode, courseCode, period)).value;
        var items := Find(enrollments, FinalizedFilter(studentCode));
        && enrollments == old(enrollments)[i := old(enrollments)[i].(status := FinalStatus(grade), finalGrade := Grade(grade))]
        && r.value == Graded(FinalStatus(grade), RecomputedAverage(items, courses, grade))
        && TotalCredits(items, courses) >= 1
        && students == old(students)[studentCode := old(students)[studentCode].(
                         average := RecomputedAverage(items, courses, grade),
                         credits := TotalCredits(items, courses))]
        && StandingConsistent(students[studentCode], enrollments, courses)
      ensures old(StandingsConsistent()) ==> StandingsConsistent()
    {
      var status := FinalStatus(grade);
      var found := FindOne(enrollments, TripleFilter(studentCode, courseCode, period));
      if found.None? || studentCode !in students || courseCode !in courses {
        return Err(RecordsNotFound);
      }
      var i := found.value;
      var e := enrollments[i];
      if e.status != InProgress {
        return Err(NotInProgress);
      }
      var graded := e.(status := status, finalGrade := Grade(grade));
      if InGradeRange(grade) {
        FinalizeWellFormed(e, status, grade);
      } else {
        FinalizeOutOfRangeRejected(e, status, grade);
      }
      if !WellFormedEnrollment(graded) {
        // the collection validator refuses the update and the transaction is aborted
        return Err(SchemaRejected);
      }

      // The recomputation reads the enrollment as updated inside the transaction.
      var items := Find(enrollments[i := graded], FinalizedFilter(studentCode));
      var totalCredits, average := RecomputeStanding(items, courses, grade);
      GradedCourseCounted(courses, enrollments, i, grade);
      if average.NaN? {
        // NaN is outside the bounds of `promedio_acumulado`: the student update is refused and the transaction aborted
        return Err(AverageRejected);
      }
      ApplyGrade(i, studentCode, grade, totalCredits, average.value);
      r := Ok(Graded(status, average.value));
    }

    /**
     * The writes of a grade registration that passed its checks: finalize record
     * `i`, then rewrite the student's credits and average from every finalized
     * enrollment of the student, the new one included.
     */
    method ApplyGrade(i: nat, studentCode: string, grade: real, totalCredits: int, average: real)
      requires Valid()
      requires i < |enrollments| && enrollments[i].studentCode == studentCode
      requires studentCode in students && InGradeRange(grade)
      requires !FinalizedWithoutGrade(enrollments, studentCode)
      requires
        var items := Find(enrollments[i := enrollments[i].(status := FinalStatus(grade), finalGrade := Grade(grade))],
                          FinalizedFilter(studentCode));
        totalCredits == TotalCredits(items, courses) && average == RecomputedAverage(items, courses, grade)
      modifies this
      ensures Valid()
      ensures courses == old(courses) && professors == old(professors)
      ensures enrollments == old(enrollments)[i := old(enrollments)[i].(status := FinalStatus(grade), finalGrade := Grade(grade))]
      ensures
        var items := Find(enrollments, FinalizedFilter(studentCode));
        students == old(students)[studentCode := old(students)[studentCode].(
                      average := average, credits := TotalCredits(items, courses))]
      ensures StandingConsistent(students[studentCode], enrollments, courses)
      ensures old(StandingsConsistent()) ==> StandingsConsistent()
    {
      ghost var es0, students0 := enrollments, students;
      enrollments := enrollments[i := enrollments[i].(status := FinalStatus(grade), finalGrade := Grade(grade))];
      students := students[studentCode := students[studentCode].(average := average, credits := totalCredits)];
      GradePreserves(students0, courses, professors, es0, i, studentCode, grade, students, enrollments);
    }

    /**
     * `retirarMateria`: mark the student's enrollment in progress for the course
     * and period as withdrawn, with the sentinel grade 0.0. The student is not
     * touched: a withdrawn record is never counted in a recomputation.
     */
    method Withdraw(studentCode: string, courseCode: string, period: string) returns (r: Result<()>)
      requires Valid()
      modifies this
      ensures Valid()
      ensures students == old(students) && courses == old(courses) && professors == old(professors)
      ensures
        var found := FindOne(old(enrollments), InProgressFilter(studentCode, courseCode, period));
        && (found.None? <==> r == Err(EnrollmentNotActive))
        && (found.None? ==> enrollments == old(enrollments))
        && (found.Some? ==>
              r == Ok(())
              && enrollments == old(enrollments)[found.value := old(enrollments)[found.value].(
                                  status := Withdrawn, finalGrade := Grade(0.0))])
      ensures forall k :: Find(enrollments, FinalizedFilter(k)) == Find(old(enrollments), FinalizedFilter(k))
      ensures old(StandingsConsistent()) ==> StandingsConsistent()
    {
      var found := FindOne(enrollments, InProgressFilter(studentCode, courseCode, period));
      if found.None? {
        return Err(EnrollmentNotActive);
      }
      var i := found.value;
      var e := enrollments[i];
      WithdrawPreserves(students, courses, professors, enrollments, i);
      ghost var before := enrollments;
      enrollments := enrollments[i := e.(status := Withdrawn, finalGrade := Grade(0.0))];
      r := Ok(());
      forall k
        ensures Find(enrollments, FinalizedFilter(k)) == Find(before, FinalizedFilter(k))
      {
        StandingUnaffected(before, i, enrollments[i], k);
      }
    }

    /**
     * `graduarEstudiante`: a student who is not yet graduated and has completed at
     * least the required credits becomes "Graduado", stamped with the given date.
     */
    method Graduate(studentCode: string, now: Date) returns (r: Result<()>)
      requires Valid()
      modifies this
      ensures Valid()
      ensures courses == old(courses) && professors == old(professors) && enrollments == old(enrollments)
      ensures studentCode !in old(students) <==> r == Err(StudentNotFound)
      ensures studentCode in old(students) ==>
        (old(students)[studentCode].status == Graduated <==> r == Err(AlreadyGraduated))
      ensures studentCode in old(students) && old(students)[studentCode].status != Graduated ==>
        var completed := old(students)[studentCode].credits;
        (completed < RequiredCredits <==> r == Err(InsufficientCredits(RequiredCredits, completed)))
      ensures r.Ok? <==>
        studentCode in old(students) && old(students)[studentCode].status != Graduated
        && old(students)[studentCode].credits >= RequiredCredits
      ensures r.Err? ==> students == old(students)
      ensures r.Ok? ==>
        students == old(students)[studentCode := old(students)[studentCode].(
                      status := Graduated, graduationDate := Some(now))]
      ensures old(StandingsConsistent()) ==> StandingsConsistent()
    {
      if studentCode !in students {
        return Err(StudentNotFound);
      }
      var st := students[studentCode];
      if st.status == Graduated {
        return Err(AlreadyGraduated);
      }
      if st.credits < RequiredCredits {
        return Err(InsufficientCredits(RequiredCredits, st.credits));
      }
      GraduatePreserves(students, courses, professors, enrollments, studentCode, now);
      students := students[studentCode := st.(status := Graduated, graduationDate := Some(now))];
      r := Ok(());
    }
  }
}
