/**
 * The read-only validators: code uniqueness, institutional e-mail, prerequisites
 * and enrollment uniqueness. Each is a function of the stored documents; none
 * changes anything. Their printed diagnostics are left out.
 */
module Validations {
  import opened Schema
  import opened Queries

  /** The collection a check is run against (`db[coleccion]`). */
  datatype Collection =
    | Students(students: map<string, Student>)
    | Courses(courses: map<string, Course>)
    | Professors(professors: map<string, Professor>)

  /** The `codigo` values stored in a collection. */
  function StoredCodes(c: Collection): set<string> {
    match c
    case Students(m) => set k | k in m :: m[k].code
    case Courses(m) => set k | k in m :: m[k].code
    case Professors(m) => set k | k in m :: m[k].code
  }

  /** The `email_institucional` values stored in a collection; only students carry that field. */
  function StoredEmails(c: Collection): set<string> {
    match c
    case Students(m) => set k | k in m :: m[k].email
    case Courses(_) => {}
    case Professors(_) => {}
  }

  /** `countDocuments({ codigo: code })`. */
  function CodeCount(c: Collection, code: string): nat {
    match c
    case Students(m) => |set k | k in m && m[k].code == code|
    case Courses(m) => |set k | k in m && m[k].code == code|
    case Professors(m) => |set k | k in m && m[k].code == code|
  }

  /** `countDocuments({ email_institucional: email })`. */
  function EmailCount(c: Collection, email: string): nat {
    match c
    case Students(m) => |set k | k in m && m[k].email == email|
    case Courses(_) => 0
    case Professors(_) => 0
  }

  /** A set with a member is not empty. */
  lemma NonEmptyCardinality<T>(s: set<T>, x: T)
    requires x in s
    ensures |s| > 0
  {
  }

  /** `countDocuments({ codigo: code })` is positive exactly when some document has that code. */
  lemma CodeCountPositive(c: Collection, code: string)
    ensures CodeCount(c, code) > 0 <==> code in StoredCodes(c)
  {
    if code in StoredCodes(c) {
      match c
      case Students(m) =>
        var k :| k in m && m[k].code == code;
        var matching := set j | j in m && m[j].code == code;
        NonEmptyCardinality(matching, k);
      case Courses(m) =>
        var k :| k in m && m[k].code == code;
        var matching := set j | j in m && m[j].code == code;
        NonEmptyCardinality(matching, k);
      case Professors(m) =>
        var k :| k in m && m[k].code == code;
        var matching := set j | j in m && m[j].code == code;
        NonEmptyCardinality(matching, k);
    }
  }

  /** `esCodigoUnico`: true iff no document of the collection has that code. */
  function IsCodeUnique(c: Collection, code: string): (r: bool)
    ensures r <==> code !in StoredCodes(c)
  {
    CodeCountPositive(c, code);
    if CodeCount(c, code) > 0 then false else true
  }

  /** In a collection keyed by code, a code is unique iff it is not a key. */
  lemma CodeUniqueIffNotKey(m: map<string, Student>, code: string)
    requires forall k :: k in m ==> m[k].code == k
    ensures IsCodeUnique(Students(m), code) <==> code !in m
  {
  }

  /** `countDocuments({ email_institucional: email })` is positive exactly when some document stores it. */
  lemma EmailCountPositive(c: Collection, email: string)
    ensures EmailCount(c, email) > 0 <==> email in StoredEmails(c)
  {
    if c.Students? && email in StoredEmails(c) {
      var m := c.students;
      var k :| k in m && m[k].email == email;
      var matching := set j | j in m && m[j].email == email;
      NonEmptyCardinality(matching, k);
    }
  }

  /**
   * `esEmailInstitucionalValidoYUnico`: the address must end in the institutional
   * domain (the test of `.*@unal\.edu\.co$`, a JavaScript pattern whose `$` matches
   * only at the very end), and only then must no document already store it.
   */
  function IsInstitutionalEmailValidAndUnique(email: string, c: Collection): (r: bool)
    ensures !EndsWith(email, InstitutionalDomain) ==> !r
    ensures EndsWith(email, InstitutionalDomain) ==> (r <==> email !in StoredEmails(c))
  {
    if !EndsWith(email, InstitutionalDomain) then false
    else
      EmailCountPositive(c, email);
      if EmailCount(c, email) > 0 then false else true
  }

  /** The filter of a passing enrollment of the student in the course, in any period. */
  function PassedFilter(student: string, course: string): Filter {
    Filter(Some(student), Some(course), None, Some([Passed]))
  }

  /** The filter of an enrollment in progress of the student in the course in that period. */
  function InProgressFilter(student: string, course: string, period: string): Filter {
    Filter(Some(student), Some(course), Some(period), Some([InProgress]))
  }

  /** The student has an "Aprobada" enrollment in the course, in some period. */
  predicate HasPassed(es: seq<Enrollment>, student: string, course: string) {
    exists i :: 0 <= i < |es| && es[i].studentCode == student && es[i].courseCode == course && es[i].status == Passed
  }

  /** The student has a "Cursando" enrollment in the course in that period. */
  predicate IsTaking(es: seq<Enrollment>, student: string, course: string, period: string) {
    exists i :: 0 <= i < |es| && es[i].studentCode == student && es[i].courseCode == course
                && es[i].period == period && es[i].status == InProgress
  }

  /** `materia.prerrequisitos || []`. */
  function PrerequisiteList(c: Course): seq<string> {
    match c.prereqs
    case None => []
    case Some(ps) => ps
  }

  /** The loop over the prerequisites, which stops at the first one the student has not passed. */
  function AllPrerequisitesPassed(es: seq<Enrollment>, student: string, prereqs: seq<string>): (r: bool)
    ensures r <==> forall j :: 0 <= j < |prereqs| ==> HasPassed(es, student, prereqs[j])
  {
    if prereqs == [] then true
    else if FindOne(es, PassedFilter(student, prereqs[0])).None? then false
    else AllPrerequisitesPassed(es, student, prereqs[1..])
  }

  /**
   * `verificarPrerrequisitos`: the course must be in the catalog, and every code in
   * its prerequisite list must have a passing enrollment of the student. Only the
   * enrollments are consulted for a prerequisite, never its course record.
   */
  function PrerequisitesMet(courses: map<string, Course>, es: seq<Enrollment>, courseCode: string, studentCode: string): (r: bool)
    ensures courseCode !in courses ==> !r
    ensures courseCode in courses && PrerequisiteList(courses[courseCode]) == [] ==> r
    ensures r <==> courseCode in courses
                   && forall j :: 0 <= j < |PrerequisiteList(courses[courseCode])|
                        ==> HasPassed(es, studentCode, PrerequisiteList(courses[courseCode])[j])
  {
    if courseCode !in courses then false
    else
      var prereqs := PrerequisiteList(courses[courseCode]);
      if |prereqs| == 0 then true
      else AllPrerequisitesPassed(es, studentCode, prereqs)
  }

  /**
   * `validarInscripcionUnica`: the student may enroll unless the course is already
   * passed (any period) or already in progress in the same period.
   */
  function IsEnrollmentUnique(es: seq<Enrollment>, student: string, course: string, period: string): (r: bool)
    ensures r <==> !HasPassed(es, student, course) && !IsTaking(es, student, course, period)
  {
    QueriesMatchPredicates(es, student, course, period);
    if CountDocuments(es, PassedFilter(student, course)) > 0 then false
    else if CountDocuments(es, InProgressFilter(student, course, period)) > 0 then false
    else true
  }

  /** The two counting queries of the uniqueness check find a record exactly when the predicates hold. */
  lemma QueriesMatchPredicates(es: seq<Enrollment>, student: string, course: string, period: string)
    ensures CountDocuments(es, PassedFilter(student, course)) > 0 <==> HasPassed(es, student, course)
    ensures CountDocuments(es, InProgressFilter(student, course, period)) > 0 <==> IsTaking(es, student, course, period)
  {
  }

  /**
   * A failed or withdrawn record, a record in progress in another period, or a
   * record of another student or course never blocks an enrollment.
   */
  lemma NonBlockingRecordIgnored(es: seq<Enrollment>, e: Enrollment, student: string, course: string, period: string)
    requires e.studentCode != student || e.courseCode != course
             || e.status == Failed || e.status == Withdrawn
             || (e.status == InProgress && e.period != period)
    ensures IsEnrollmentUnique(es + [e], student, course, period) == IsEnrollmentUnique(es, student, course, period)
  {
  }

  /** A passing record of the course in any period, or one in progress in the same period, blocks it. */
  lemma BlockingRecordRefused(es: seq<Enrollment>, e: Enrollment, student: string, course: string, period: string)
    requires e.studentCode == student && e.courseCode == course
    requires e.status == Passed || (e.status == InProgress && e.period == period)
    ensures !IsEnrollmentUnique(es + [e], student, course, period)
  {
  }

  /** Enrollment is possible for a course when both checks of the batch pass. */
  predicate CanEnroll(courses: map<string, Course>, es: seq<Enrollment>, student: string, course: string, period: string) {
    IsEnrollmentUnique(es, student, course, period) && PrerequisitesMet(courses, es, course, student)
  }
}
