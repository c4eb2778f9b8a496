/**
 * The documents of the academic records database and the constraints that the
 * collection validators declare for them (the `$jsonSchema` of `estudiantes`,
 * `materias`, `profesores` and `inscripciones`). The collections are created with
 * strict validation and error action, so every stored document satisfies these
 * predicates and a write that would break one is rejected by the database.
 */
module Schema {

  /** A value that may be absent: a missing field or a BSON null, wherever the code treats the two alike. */
  datatype Option<T> = None | Some(value: T)

  /**
   * The `calificacion_final` field, where a missing field and a BSON null differ:
   * the recomputation of a student's average multiplies the field, and in
   * JavaScript `null` multiplies as 0 while a missing field (`undefined`) gives NaN.
   */
  datatype GradeField = Absent | Null | Grade(value: real)

  /** A timestamp. Clocks are outside the model: callers pass dates in. */
  type Date = int

  // Values of `estado` (students).
  const Active: string := "Activo"
  const Inactive: string := "Inactivo"
  const Retired: string := "Retirado"
  const Graduated: string := "Graduado"

  // Values of `estado_materia` (enrollments).
  const InProgress: string := "Cursando"
  const Passed: string := "Aprobada"
  const Failed: string := "Reprobada"
  const Withdrawn: string := "Retirada"

  /** The institutional mail domain, with its leading `@`. */
  const InstitutionalDomain: string := "@unal.edu.co"

  /** A document of `estudiantes`; `graduationDate` is `fecha_graduacion`, which only graduation writes. */
  datatype Student = Student(
    code: string,
    name: string,
    email: string,
    birthDate: Date,
    semester: int,
    programCode: string,
    status: string,
    average: real,
    credits: int,
    graduationDate: Option<Date>)

  /** A document of `materias`; `prereqs` is `None` when the document has no `prerrequisitos` field. */
  datatype Course = Course(
    code: string,
    name: string,
    credits: int,
    prereqs: Option<seq<string>>,
    programCode: string)

  /** One entry of a professor's `materias_asignadas`. */
  datatype Assignment = Assignment(courseCode: string, period: string)

  /** A document of `profesores`. */
  datatype Professor = Professor(
    code: string,
    name: string,
    specialty: string,
    assignments: Option<seq<Assignment>>)

  /** One entry of an enrollment's `calificaciones`; none of its fields is required by the schema. */
  datatype PartialGrade = PartialGrade(kind: Option<string>, weight: Option<int>, score: Option<real>)

  /** A document of `inscripciones`; an absent `calificaciones` array is modelled as the empty one. */
  datatype Enrollment = Enrollment(
    studentCode: string,
    courseCode: string,
    period: string,
    enrolledOn: Date,
    status: string,
    finalGrade: GradeField,
    partials: seq<PartialGrade>)

  /** A grade on the 0.0 to 5.0 scale. */
  predicate InGradeRange(g: real) {
    0.0 <= g <= 5.0
  }

  /** True iff `s` ends with `suffix`. */
  predicate EndsWith(s: string, suffix: string) {
    |suffix| <= |s| && s[|s| - |suffix|..] == suffix
  }

  /**
   * The schema's `pattern: '@unal\.edu\.co$'`. The server evaluates it with PCRE,
   * where `$` also matches just before a final newline.
   */
  predicate MatchesEmailPattern(email: string) {
    EndsWith(email, InstitutionalDomain) || EndsWith(email, InstitutionalDomain + "\n")
  }

  predicate ValidStudentStatus(status: string) {
    status == Active || status == Inactive || status == Retired || status == Graduated
  }

  predicate ValidEnrollmentStatus(status: string) {
    status == InProgress || status == Passed || status == Failed || status == Withdrawn
  }

  predicate WellFormedStudent(st: Student) {
    && |st.code| >= 4
    && MatchesEmailPattern(st.email)
    && 1 <= st.semester <= 12
    && ValidStudentStatus(st.status)
    && InGradeRange(st.average)
    && st.credits >= 0
  }

  predicate WellFormedCourse(c: Course) {
    c.credits >= 1
  }

  predicate WellFormedPartialGrade(pg: PartialGrade) {
    && (pg.weight.Some? ==> 1 <= pg.weight.value <= 100)
    && (pg.score.Some? ==> InGradeRange(pg.score.value))
  }

  predicate WellFormedEnrollment(e: Enrollment) {
    && ValidEnrollmentStatus(e.status)
    && (e.finalGrade.Grade? ==> InGradeRange(e.finalGrade.value))
    && forall i :: 0 <= i < |e.partials| ==> WellFormedPartialGrade(e.partials[i])
  }

  /** Every student document is keyed by its code and satisfies the `estudiantes` validator. */
  predicate StudentsWellFormed(students: map<string, Student>) {
    forall k :: k in students ==> students[k].code == k && WellFormedStudent(students[k])
  }

  /** Every course document is keyed by its code and satisfies the `materias` validator. */
  predicate CoursesWellFormed(courses: map<string, Course>) {
    forall k :: k in courses ==> courses[k].code == k && WellFormedCourse(courses[k])
  }

  /** Every professor document is keyed by its code; the validator constrains only field types. */
  predicate ProfessorsKeyed(professors: map<string, Professor>) {
    forall k :: k in professors ==> professors[k].code == k
  }

  /** Every enrollment satisfies the `inscripciones` validator. */
  predicate EnrollmentsWellFormed(enrollments: seq<Enrollment>) {
    forall i :: 0 <= i < |enrollments| ==> WellFormedEnrollment(enrollments[i])
  }

  /**
   * The whole database satisfies its validators, and each keyed collection is
   * keyed by the documents' own `codigo`. Cross-collection references are loose
   * and not required.
   */
  predicate WellFormedDb(
    students: map<string, Student>,
    courses: map<string, Course>,
    professors: map<string, Professor>,
    enrollments: seq<Enrollment>)
  {
    StudentsWellFormed(students) && CoursesWellFormed(courses)
    && ProfessorsKeyed(professors) && EnrollmentsWellFormed(enrollments)
  }

  /** Changing only the academic standing keeps a student valid when the new values are in range. */
  lemma StandingUpdateWellFormed(st: Student, average: real, credits: int)
    requires WellFormedStudent(st)
    requires InGradeRange(average) && credits >= 0
    ensures WellFormedStudent(st.(average := average, credits := credits))
  {
  }

  /** Graduation keeps a student valid: "Graduado" is in the enum and the date field is not constrained. */
  lemma GraduationWellFormed(st: Student, date: Date)
    requires WellFormedStudent(st)
    ensures WellFormedStudent(st.(status := Graduated, graduationDate := Some(date)))
  {
  }

  /** Finalizing or withdrawing an enrollment with a grade in range keeps it valid. */
  lemma FinalizeWellFormed(e: Enrollment, status: string, grade: real)
    requires WellFormedEnrollment(e)
    requires ValidEnrollmentStatus(status) && InGradeRange(grade)
    ensures WellFormedEnrollment(e.(status := status, finalGrade := Grade(grade)))
  {
  }

  /** Finalizing with a grade out of range is exactly what the `calificacion_final` bounds reject. */
  lemma FinalizeOutOfRangeRejected(e: Enrollment, status: string, grade: real)
    requires !InGradeRange(grade)
    ensures !WellFormedEnrollment(e.(status := status, finalGrade := Grade(grade)))
  {
  }

  /** Every address ending in the institutional domain satisfies the schema pattern. */
  lemma InstitutionalEmailMatchesPattern(email: string)
    requires EndsWith(email, InstitutionalDomain)
    ensures MatchesEmailPattern(email)
  {
  }

  /**
   * The converse fails: the schema pattern also admits the domain followed by
   * one newline, which an ends-with test refuses.
   */
  lemma PatternAdmitsTrailingNewline()
    ensures MatchesEmailPattern("ana@unal.edu.co\n")
    ensures !EndsWith("ana@unal.edu.co\n", InstitutionalDomain)
  {
  }
}
