/**
 * Concrete runs of the operations on small stores shaped like the seed data:
 * the edge cases the transactional operations decide, stated on known inputs.
 */
module Scenarios {
  import opened Schema
  import opened Queries
  import opened Validations
  import opened Standing
  import opened Transactions

  const Student1: string := "EST001"
  const Student2: string := "EST002"
  const Calculus: string := "MAT001"
  const CalculusII: string := "MAT002"
  const Physics: string := "MAT003"
  const Period: string := "2024-1"

  function SeedStudent(code: string, credits: int): Student {
    Student(code, "Ana", "ana@unal.edu.co", 0, 5, "PROG001", Active, 0.0, credits, None)
  }

  /** Calculus has no prerequisites, Calculus II needs Calculus, Physics has 3 credits. */
  function SeedCourses(): map<string, Course> {
    map[Calculus := Course(Calculus, "Calculo", 4, None, "PROG001"),
        CalculusII := Course(CalculusII, "Calculo II", 4, Some([Calculus]), "PROG001"),
        Physics := Course(Physics, "Fisica", 3, Some([]), "PROG001")]
  }

  function Record(student: string, course: string, status: string, grade: GradeField): Enrollment {
    Enrollment(student, course, Period, 0, status, grade, [])
  }

  lemma SeedStudentWellFormed(code: string, credits: int)
    requires |code| >= 4 && credits >= 0
    ensures WellFormedStudent(SeedStudent(code, credits))
  {
  }

  /** A student who passed Calculus meets the prerequisite of Calculus II; another student does not. */
  lemma PrerequisiteScenario()
    ensures PrerequisitesMet(SeedCourses(), [Record(Student1, Calculus, Passed, Grade(4.0))], CalculusII, Student1)
    ensures !PrerequisitesMet(SeedCourses(), [Record(Student1, Calculus, Passed, Grade(4.0))], CalculusII, Student2)
    ensures !PrerequisitesMet(SeedCourses(), [Record(Student1, Calculus, Failed, Grade(2.0))], CalculusII, Student1)
    ensures !PrerequisitesMet(SeedCourses(), [], "MAT999", Student1)
    ensures PrerequisitesMet(SeedCourses(), [], Physics, Student1)
  {
  }

  /** Grades 4.0 over 4 credits and 2.0 over 3 credits average to 22/7, with 7 credits completed. */
  lemma WeightedAverageScenario()
    ensures
      var items := [Record(Student1, Calculus, Passed, Grade(4.0)), Record(Student1, Physics, Failed, Grade(2.0))];
      && TotalCredits(items, SeedCourses()) == 7
      && RecomputedAverage(items, SeedCourses(), 2.0) == 22.0 / 7.0
  {
    var courses := SeedCourses();
    var items := [Record(Student1, Calculus, Passed, Grade(4.0)), Record(Student1, Physics, Failed, Grade(2.0))];
    assert items[..1] == [items[0]];
    assert items[..1][..0] == [];
    assert CreditsOf(courses, Calculus) == 4 && CreditsOf(courses, Physics) == 3;
    assert TotalCredits(items[..1], courses) == 4;
    assert WeightedTotal(items[..1], courses) == 16.0;
    assert TotalCredits(items, courses) == 7;
    assert WeightedTotal(items, courses) == 22.0;
  }

  /** When no finalized course is in the catalog, the new grade itself becomes the average. */
  lemma FallbackScenario()
    ensures RecomputedAverage([Record(Student1, "MAT999", Passed, Grade(4.5))], SeedCourses(), 4.5) == 4.5
  {
    var items := [Record(Student1, "MAT999", Passed, Grade(4.5))];
    assert items[..0] == [];
    assert "MAT999" !in SeedCourses() by {
      assert "MAT999"[3] != Calculus[3] && "MAT999"[3] != CalculusII[3] && "MAT999"[3] != Physics[3];
    }
    assert TotalCredits(items, SeedCourses()) == 0;
  }

  /** The passing threshold is inclusive. */
  lemma PassingThresholdScenario()
    ensures FinalStatus(3.0) == Passed
    ensures FinalStatus(2.999) == Failed
  {
  }

  /** A store holding one active student with the given credits, the seed courses and the given enrollments. */
  method SeedStore(credits: int, es: seq<Enrollment>) returns (store: AcademicStore)
    requires credits >= 0 && EnrollmentsWellFormed(es)
    ensures fresh(store) && store.Valid()
    ensures store.students == map[Student1 := SeedStudent(Student1, credits)]
    ensures store.courses == SeedCourses() && store.enrollments == es
  {
    SeedStudentWellFormed(Student1, credits);
    store := new AcademicStore(map[Student1 := SeedStudent(Student1, credits)], SeedCourses(), map[], es);
  }

  /** One credit short of the requirement, graduation is refused and reports both figures. */
  method GraduationScenario() returns (short: Result<()>, enough: Result<()>)
    ensures short == Err(InsufficientCredits(160, 159))
    ensures enough.Ok?
  {
    assert Active != Graduated by { assert Active[0] != Graduated[0]; }
    var store := SeedStore(159, []);
    short := store.Graduate(Student1, 0);
    var other := SeedStore(160, []);
    enough := other.Graduate(Student1, 0);
  }

  /** Every check of a batch runs before any insert, so a code listed twice is enrolled twice. */
  method RepeatedCodeScenario() returns (r: Result<nat>, es: seq<Enrollment>)
    ensures r == Ok(2)
    ensures |es| == 2 && es[0] == es[1] && es[0].courseCode == Calculus && es[0].status == InProgress
  {
    var store := SeedStore(0, []);
    var courses := SeedCourses();
    assert PrerequisitesMet(courses, [], Calculus, Student1) by {
      assert PrerequisiteList(courses[Calculus]) == [];
    }
    assert BatchFailure(courses, [], Student1, Period, [Calculus, Calculus]).None? by {
      assert CanEnroll(courses, [], Student1, Calculus, Period);
    }
    r := store.EnrollBatch(Student1, Period, [Calculus, Calculus], 0);
    es := store.enrollments;
  }

  /** A withdrawn record blocks neither check of a new enrollment in the same course and period. */
  lemma WithdrawnRecordDoesNotBlock()
    ensures CanEnroll(SeedCourses(), [Record(Student1, Calculus, Withdrawn, Grade(0.0))], Student1, Calculus, Period)
  {
  }

  /** A withdrawal is accepted once; the second one finds no record in progress and is refused. */
  method WithdrawTwiceScenario() returns (first: Result<()>, second: Result<()>)
    ensures first.Ok? && second == Err(EnrollmentNotActive)
  {
    var store := SeedStore(0, [Record(Student1, Calculus, InProgress, Null)]);
    first := store.Withdraw(Student1, Calculus, Period);
    assert store.enrollments == [Record(Student1, Calculus, Withdrawn, Grade(0.0))];
    assert Withdrawn != InProgress by { assert Withdrawn[0] != InProgress[0]; }
    second := store.Withdraw(Student1, Calculus, Period);
  }

  /**
   * After a withdrawal, enrolling again in the same course and period is accepted,
   * but grading is refused: the grade lookup has no status filter and finds the
   * withdrawn record first.
   */
  method ReenrollAfterWithdrawalScenario() returns (again: Result<nat>, graded: Result<Graded>)
    ensures again == Ok(1)
    ensures graded == Err(NotInProgress)
  {
    var withdrawn := Record(Student1, Calculus, Withdrawn, Grade(0.0));
    var store := SeedStore(0, [withdrawn]);
    WithdrawnRecordDoesNotBlock();
    assert BatchFailure(SeedCourses(), [withdrawn], Student1, Period, [Calculus]).None?;
    again := store.EnrollBatch(Student1, Period, [Calculus], 1);
    assert Matches(store.enrollments[0], TripleFilter(Student1, Calculus, Period));
    assert Withdrawn != InProgress by { assert Withdrawn[0] != InProgress[0]; }
    graded := store.RegisterGrade(Student1, Calculus, 4.0, Period);
  }

  /**
   * A finalized record without a `calificacion_final` field makes the recomputed
   * average NaN, so the student update is refused and the grade is not recorded.
   */
  method MissingGradeScenario() returns (r: Result<Graded>)
    ensures r == Err(AverageRejected)
  {
    assert Physics[5] != Calculus[5];
    var store := SeedStore(0, [Record(Student1, Physics, Passed, Absent), Record(Student1, Calculus, InProgress, Null)]);
    assert Matches(store.enrollments[0], FinalizedFilter(Student1));
    r := store.RegisterGrade(Student1, Calculus, 4.0, Period);
  }

  /** The same record with a null grade multiplies as 0, and the grade is recorded. */
  method NullGradeScenario() returns (r: Result<Graded>)
    ensures r.Ok?
  {
    assert Physics[5] != Calculus[5];
    assert InProgress != Passed && InProgress != Failed;
    var store := SeedStore(0, [Record(Student1, Physics, Passed, Null), Record(Student1, Calculus, InProgress, Null)]);
    r := store.RegisterGrade(Student1, Calculus, 4.0, Period);
  }
}
