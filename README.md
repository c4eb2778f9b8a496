# Academic records store: validators and transactions

This project models the core of a MongoDB university records database (students,
courses, professors and enrollments). Three parts are modelled:

- the `$jsonSchema` validators of the collections, as well-formedness predicates;
- the read-only validators: code uniqueness, institutional e-mail, prerequisites and
  enrollment uniqueness;
- the four transactional operations: batch enrollment, grade registration with a full
  recomputation of the student's credits and average, withdrawal, and graduation.

The collections are created with strict validation and the `error` action, so every
stored document satisfies its validator. The store is a class, `AcademicStore`:

- students, courses and professors are maps keyed by `codigo`;
- enrollments are a sequence in natural order, and `findOne` returns the first match.

Each transactional method requires `Valid()`, the schema predicates of all four
collections, and ensures that it still holds afterwards. Each also keeps the
store-wide invariant `StandingsConsistent()`: every student's `creditos_cursados` and
`promedio_acumulado` agree with a recomputation from that student's finalized
enrollments. Once credits are counted, that recomputation must also be a number: no
finalized record of the student may lack `calificacion_final`, since the resulting NaN
could never have been stored. Every error path is an `Err` value of `Result`, and on any error nothing
changes. That is how an aborted transaction shows up in the model. The field ranges and
enums of the validators (semester in [1,12], status enums, average in [0,5], credits of
a course at least 1, partial-grade weights in [1,100]) are part of `Valid()`. Every
operation keeps them, and the preservation lemmas of `Transactions` show how.

Modules, one file each:

- `Schema` (schema.dfy): the documents and the validator predicates.
- `Queries` (queries.dfy): `countDocuments`, `findOne` and `find` over a filter of
  equalities and a status `$in`.
- `Validations` (validations.dfy): the validators.
- `Standing` (standing.dfy): the credit-weighted recomputation.
- `Transactions` (transactions.dfy): the store and its four operations.
- `Scenarios` (scenarios.dfy): concrete runs on seed-like data.

The model follows the code as written, including these behaviours of it:

- `verificarPrerrequisitos` never looks up a prerequisite's own course record. A
  prerequisite code that names no course fails only because no enrollment passed it.
- `retirarMateria` stores `calificacion_final: 0.0` on a "Retirada" record. So "a final
  grade is present exactly when the status is Aprobada or Reprobada" is not an
  invariant, and the model does not claim it.
- `registrarNotaYActualizarPromedio` looks the enrollment up by student, course and
  period with no status filter, and `findOne` returns the first match. Two
  consequences follow:
  - a second grade for the same triple is always refused (`RegradeRefused`);
  - after a withdrawal and a re-enrollment in the same period, the withdrawn record
    is found first, so grading is refused (`ReenrollAfterWithdrawalScenario`).
- In the same function, the branch around the recomputation is always taken, because
  the status is always Aprobada or Reprobada. The value `nuevoPonderadoTotal` is
  computed and never used. The model has only the recomputation.
- The grade is not range-checked by the function itself. An out-of-range grade makes
  the enrollment update violate the `calificacion_final` bounds. The validator refuses
  it and the transaction aborts (`SchemaRejected`).
- The `inscripciones` validator does not require `calificacion_final`, so a stored
  "Aprobada" or "Reprobada" record may lack it. The loop multiplies the field by the
  credits. A null field multiplies as 0, but a missing one (`undefined`) gives NaN,
  and NaN makes the whole total and the new average NaN. NaN fails the `minimum: 0`
  bound of `promedio_acumulado`, so the student update is refused and the
  transaction aborts (`AverageRejected`). The model keeps a missing field and a null
  one apart (`GradeField`) and tracks NaN through the loop (`WeightedSum`).
- The fallback `totalCreditos > 0 ? … : notaFinal` is never taken inside
  `registrarNotaYActualizarPromedio`. The graded course exists, every course has at
  least one credit, and the just-graded record is among the finalized ones, so at
  least that course's credits are counted (`GradedCourseCounted`). `FallbackScenario`
  exercises the branch of the recomputation function on its own.

## Model

| member | source | states |
|---|---|---|
| Schema.WellFormedStudent | scripts/02-create-collection.js:31-74 | a student document satisfies the `estudiantes` validator: code of at least 4 characters, e-mail matching the pattern, semester in [1,12], status in the enum, average in [0,5], credits at least 0 |
| Schema.MatchesEmailPattern | scripts/02-create-collection.js:40-44 | the server-side pattern `@unal\.edu\.co$`: the address ends in the domain, or in the domain followed by one final newline |
| Schema.ValidStudentStatus | scripts/02-create-collection.js:59-63 | `estado` is one of "Activo", "Inactivo", "Retirado" and "Graduado" |
| Schema.WellFormedCourse | scripts/02-create-collection.js:105-109 | a course carries at least one credit |
| Schema.ValidEnrollmentStatus | scripts/02-create-collection.js:208-217 | `estado_materia` is one of "Cursando", "Aprobada", "Reprobada" and "Retirada" |
| Schema.WellFormedPartialGrade | scripts/02-create-collection.js:227-247 | a partial grade's weight, when present, is in [1,100] and its score, when present, in [0,5] |
| Schema.WellFormedEnrollment | scripts/02-create-collection.js:180-250 | an enrollment has an enum status, a final grade in [0,5] when one is stored (absent and null are both allowed), and well-formed partial grades |
| Schema.StandingUpdateWellFormed | scripts/02-create-collection.js:31-74 | rewriting a valid student's average and credits with an average in [0,5] and non-negative credits keeps the whole student document valid: code length, e-mail pattern, semester in [1,12] and status enum are untouched |
| Schema.GraduationWellFormed | scripts/02-create-collection.js:31-74 | setting `estado` to "Graduado" and a graduation date keeps a valid student document valid |
| Schema.FinalizeWellFormed | scripts/02-create-collection.js:208-244 | a valid enrollment given an enum status and a final grade in [0,5] stays valid, its partial grades untouched |
| Schema.FinalizeOutOfRangeRejected | scripts/02-create-collection.js:218-226 | a final grade outside [0,5] always makes the enrollment invalid, whatever the status |
| Schema.InstitutionalEmailMatchesPattern | scripts/02-create-collection.js:40-44 | every address ending in "@unal.edu.co" satisfies the schema pattern |
| Schema.PatternAdmitsTrailingNewline | scripts/02-create-collection.js:40-44 | the schema pattern, unlike the ends-with test of the e-mail validator, also admits the domain followed by one final newline |
| Queries.CountDocuments | scripts/03-Validations.js:94-98 | the count of matching documents never exceeds the collection size |
| Queries.CountZeroIffNoneMatch | scripts/03-Validations.js:100-116 | the count is zero exactly when no document matches the filter |
| Queries.FindOne | scripts/05-Transactions.js:94-98 | `findOne` yields the position of the first matching document, and nothing exactly when no document matches |
| Queries.Find | scripts/05-Transactions.js:134-140 | `find` returns as many documents as `countDocuments` counts |
| Queries.FindSound | scripts/05-Transactions.js:134-140 | every document `find` returns is in the collection and matches the filter |
| Queries.FindComplete | scripts/05-Transactions.js:134-140 | every matching document of the collection is among those `find` returns |
| Queries.CountAfterUpdate | scripts/05-Transactions.js:218-227 | replacing one document changes the count by exactly what the old and new documents contribute |
| Queries.FindOneAfterAppend | scripts/05-Transactions.js:94-98 | documents inserted after the first match do not change which document `findOne` returns |
| Queries.FindAfterUnmatchedUpdate | scripts/05-Transactions.js:134-140 | replacing a document that neither matched nor matches leaves the `find` result unchanged |
| Queries.FindAfterUnmatchedAppend | scripts/05-Transactions.js:134-140 | inserting documents none of which matches leaves the `find` result unchanged |
| Queries.CountAfterUnmatchedAppend | scripts/03-Validations.js:94-111 | inserting documents none of which matches leaves the count unchanged |
| Validations.CodeCount | scripts/03-Validations.js:15 | `countDocuments({ codigo })`: the number of documents of the collection with that code |
| Validations.EmailCount | scripts/03-Validations.js:38 | `countDocuments({ email_institucional })`: the number of students with that address, 0 for collections without the field |
| Validations.CodeCountPositive | scripts/03-Validations.js:15-16 | the code count is positive exactly when some document of the collection has that code |
| Validations.IsCodeUnique | scripts/03-Validations.js:14-21 | `esCodigoUnico` is true exactly when no document of the collection has that code |
| Validations.CodeUniqueIffNotKey | scripts/03-Validations.js:14-21 | in a students collection keyed by code, a code is unique exactly when it is not a key |
| Validations.EmailCountPositive | scripts/03-Validations.js:38-39 | the e-mail count is positive exactly when some document stores that address |
| Validations.IsInstitutionalEmailValidAndUnique | scripts/03-Validations.js:30-44 | an address not ending in the institutional domain is refused; one that ends in it is accepted exactly when no document stores it |
| Validations.AllPrerequisitesPassed | scripts/03-Validations.js:67-81 | the early-exit loop over the prerequisites succeeds exactly when the student has an "Aprobada" enrollment for every listed code |
| Validations.PrerequisitesMet | scripts/03-Validations.js:53-82 | an unknown course fails; a course with no prerequisites passes; in general the check passes exactly when the course exists and every prerequisite was passed in some period |
| Validations.IsEnrollmentUnique | scripts/03-Validations.js:92-119 | enrollment is allowed exactly when the course was never passed and is not in progress in the same period |
| Validations.QueriesMatchPredicates | scripts/03-Validations.js:94-111 | each of the two counting queries finds a record exactly when a passed record, or a record in progress in that period, exists |
| Validations.NonBlockingRecordIgnored | scripts/03-Validations.js:92-119 | adding a failed or withdrawn record, a record in progress in another period, or a record of another student or course never changes the answer |
| Validations.BlockingRecordRefused | scripts/03-Validations.js:92-119 | adding a passed record of the course, or one in progress in the same period, always makes enrollment refused |
| Standing.CreditsOf | scripts/05-Transactions.js:148-149 | the credits of the item's course, or 0 when the catalog has no such course |
| Standing.Times | scripts/05-Transactions.js:151 | `calificacion_final * creditos`: NaN for a missing field, 0 for null, grade times credits otherwise |
| Standing.Plus | scripts/05-Transactions.js:151-152 | JavaScript addition, with NaN absorbing the other operand |
| Standing.TotalCredits | scripts/05-Transactions.js:142-153 | `totalCreditos` after the loop: the sum of the catalog credits of the items |
| Standing.WeightedSum | scripts/05-Transactions.js:142-153 | `totalPonderado` after the loop, NaN included |
| Standing.RecomputedAverage | scripts/05-Transactions.js:155-156 | the credit-weighted mean of the grades, or the new grade when no credit was counted, with a missing grade counting as 0 (`AverageWrittenIsRecomputed` says when that equals what is written) |
| Standing.AverageWritten | scripts/05-Transactions.js:155-156 | `nuevoPromedio`: the weighted sum over the credits, NaN when the sum is NaN, or the new grade when no credit was counted |
| Standing.StandingConsistent | scripts/05-Transactions.js:134-170 | a student's stored credits equal the recomputed credits; when credits were counted, no finalized record lacks its grade and the stored average is the credit-weighted mean |
| Standing.TotalsStep | scripts/05-Transactions.js:145-153 | one iteration adds the item's catalog credits (0 when the course is missing) and its grade times those credits; a null grade multiplies as 0, a missing one gives NaN, and NaN absorbs the sum |
| Standing.WeightedSumIsTotal | scripts/05-Transactions.js:142-153 | `totalPonderado` is NaN exactly when some item lacks `calificacion_final`; otherwise it is the real credit-weighted total, null grades counting as 0 |
| Standing.AverageWrittenIsRecomputed | scripts/05-Transactions.js:155-156 | the average written back is NaN exactly when credits were counted and some item lacks its grade; otherwise it is the credit-weighted mean, or the new grade when no credit was counted |
| Standing.TotalsBounded | scripts/05-Transactions.js:142-153 | with catalog credits at least 1 and stored grades in [0,5], the credits total is non-negative and the weighted total lies between 0 and 5 times it |
| Standing.RecomputedAverageInRange | scripts/05-Transactions.js:155-157 | the recomputed average stays in [0,5] whenever the stored grades and the new grade do |
| Standing.NoCreditsIffUncatalogued | scripts/05-Transactions.js:148-156 | the fallback to the new grade happens exactly when none of the finalized courses is in the catalog |
| Standing.UniformGradeTotal | scripts/05-Transactions.js:142-153 | when every finalized record has the same grade g, the weighted total is g times the credits |
| Standing.UniformGradeAverage | scripts/05-Transactions.js:142-157 | when every finalized record has the same grade g and the new grade is g, the recomputed average is g |
| Transactions.FinalStatus | scripts/05-Transactions.js:91 | the status is "Aprobada" or "Reprobada", and "Aprobada" exactly when the grade is at least 3.0 |
| Transactions.NewEnrollments | scripts/05-Transactions.js:38-47 | the batch prepares one "Cursando" record with a null grade and no partial grades per listed code, in list order |
| Transactions.CheckFailure | scripts/05-Transactions.js:30-35 | the error reported for a failing code: uniqueness is checked, and reported, before prerequisites |
| Transactions.FirstFailing | scripts/05-Transactions.js:29-36 | the validation loop stops at the first code that cannot be enrolled: every earlier code passes both checks, and there is no stop exactly when every code passes |
| Transactions.FailureAt | scripts/05-Transactions.js:29-36 | when every code before position i passes and code i fails, the batch reports code i's error |
| Transactions.BatchFailure | scripts/05-Transactions.js:28-36 | the validation loop reports no failure exactly when every code passes both checks; otherwise it reports the error of the first failing code, uniqueness before prerequisites |
| Transactions.FoundGradesInRange | scripts/05-Transactions.js:134-151 | every record `find` returns from a valid collection has its final grade in [0,5] when present |
| Transactions.RegradeRefused | scripts/05-Transactions.js:94-108 | after a grade is recorded, the same triple's lookup still finds that record and it is no longer "Cursando", so a second grading is refused |
| Transactions.WithdrawalConsumesRecord | scripts/05-Transactions.js:205-227 | a withdrawal removes its record from the in-progress query: the count drops by one, a later lookup only finds a later record, and with one such record a second withdrawal is refused |
| Transactions.StandingUnaffected | scripts/05-Transactions.js:229-234 | changing a record that is not finalized, before or after, leaves every student's finalized records as they were |
| Transactions.BatchWellFormed | scripts/05-Transactions.js:39-56 | the records a batch inserts satisfy the enrollments validator |
| Transactions.BatchKeepsStandings | scripts/05-Transactions.js:39-56 | inserting the batch's "Cursando" records keeps every student's standing consistent |
| Transactions.GradeKeepsOtherStandings | scripts/05-Transactions.js:111-120 | finalizing one student's record leaves every other student's standing consistent |
| Transactions.AbsentFoundWasStored | scripts/05-Transactions.js:134-151 | a record the recomputation finds without a grade, after the graded record received one, was already a finalized record of the student without a grade |
| Transactions.GradedCourseCounted | scripts/05-Transactions.js:94-156 | once the record in progress of a catalogued course is finalized, the recomputation counts at least one credit, so the fallback is never taken; the new average is NaN exactly when some finalized record of the student lacks `calificacion_final` |
| Transactions.RecomputedStandingConsistent | scripts/05-Transactions.js:122-170 | when no finalized record lacks its grade, the standing recomputed from the finalized records is valid for the schema and consistent with those records |
| Transactions.GradePreserves | scripts/05-Transactions.js:110-170 | when no other finalized record of the student lacks its grade (the case in which the writes happen at all), the two writes of a grade registration keep every collection valid, make the graded student's standing consistent and keep every other student's standing consistent |
| Transactions.WithdrawPreserves | scripts/05-Transactions.js:217-234 | a withdrawal keeps every collection valid and every standing consistent |
| Transactions.GraduatePreserves | scripts/05-Transactions.js:281-291 | graduation keeps every collection valid and every standing consistent |
| Transactions.RecomputeStanding | scripts/05-Transactions.js:142-157 | the loop computes the total credits and `nuevoPromedio`: NaN exactly when credits were counted and some record lacks its grade, otherwise the credit-weighted mean, or the new grade when no credit was counted |
| Transactions.AcademicStore.EnrollBatch | scripts/05-Transactions.js:16-69 | a missing student is refused; otherwise the batch fails with the first failing code's error, changing nothing, or appends one new record per code and reports the count; validity and standings are kept |
| Transactions.AcademicStore.RegisterGrade | scripts/05-Transactions.js:85-183 | the four error cases hold exactly when a record is missing, when the triple's first record is not "Cursando", when the grade is outside [0,5], or when another finalized record of the student lacks `calificacion_final` (NaN average); success happens exactly when none of these applies, and then that record is finalized, at least one credit is counted, and the student's credits and average are rewritten and consistent |
| Transactions.AcademicStore.ApplyGrade | scripts/05-Transactions.js:110-170 | the two writes: the record gets its status and grade, and the student gets the credits and average recomputed from all of that student's finalized records; validity and every standing are kept |
| Transactions.AcademicStore.Withdraw | scripts/05-Transactions.js:198-247 | with no record in progress for the triple the call is refused and nothing changes; otherwise the first such record becomes "Retirada" with grade 0.0, students are untouched, and no student's finalized records change |
| Transactions.AcademicStore.Graduate | scripts/05-Transactions.js:260-307 | refusals for a missing student, an already graduated one, and fewer than 160 credits, in that order, each exactly in its case; otherwise the student is "Graduado" with the given date |
| Scenarios.PrerequisiteScenario | scripts/03-Validations.js:53-82 | a student who passed the prerequisite may take the course; another student, a failed record, or an unknown course do not pass |
| Scenarios.WeightedAverageScenario | scripts/05-Transactions.js:142-157 | grades 4.0 over 4 credits and 2.0 over 3 credits give 7 credits and an average of 22/7 |
| Scenarios.FallbackScenario | scripts/05-Transactions.js:155-156 | with no catalogued finalized course, the recomputation function returns the new grade (a branch grade registration itself never reaches) |
| Scenarios.PassingThresholdScenario | scripts/05-Transactions.js:91 | 3.0 passes and 2.999 fails |
| Scenarios.GraduationScenario | scripts/05-Transactions.js:274-279 | 159 credits are refused with both figures reported, and 160 graduate |
| Scenarios.RepeatedCodeScenario | scripts/05-Transactions.js:28-56 | a code listed twice in one batch is enrolled twice |
| Scenarios.WithdrawnRecordDoesNotBlock | scripts/03-Validations.js:92-119 | a withdrawn record blocks neither check of a new enrollment in the same course and period |
| Scenarios.WithdrawTwiceScenario | scripts/05-Transactions.js:205-215 | a withdrawal is accepted once, and the second one is refused |
| Scenarios.MissingGradeScenario | scripts/05-Transactions.js:145-170 | a passed record without `calificacion_final` makes grading another course abort with a NaN average |
| Scenarios.NullGradeScenario | scripts/05-Transactions.js:145-170 | the same passed record with a null grade multiplies as 0, and grading the other course succeeds |
| Scenarios.ReenrollAfterWithdrawalScenario | scripts/05-Transactions.js:94-108 | after a withdrawal, enrolling again in the same course and period is accepted, and grading is then refused because the lookup finds the withdrawn record first |

## Left out

- Sessions, transactions and concurrency are not modelled. Each operation is one atomic step, and an aborted transaction is modelled as no change.
- In the enrollment batch, the validation loop runs outside the transaction. Interleaving with other writers is not modelled.
- Printed diagnostics and the returned message strings are replaced by the `Result` and `Error` values. This includes the `toFixed(2)` average in the grade message.
- Numbers are unbounded: `int` and `real` stand in for BSON `int` and `double`, and rounding of `Double` arithmetic is not modelled. NaN is modelled only where the code can produce it, from a missing `calificacion_final` in the recomputation.
- Schema type constraints (`bsonType`, required fields) are implied by the Dafny types, so they are not separate predicates.
- `new Date()` is a parameter (`now`), and dates are plain integers.
- The `_id` fields are replaced by keys: map keys for students, courses and professors, and positions in the sequence for enrollments.
- Maps keyed by code cannot hold two students with the same code. `countDocuments` on codes therefore returns 0 or 1 in the model.
- Professors and courses store no `email_institucional`, so the e-mail check counts 0 matches on those collections, as the query in scripts/03-Validations.js:38 does.
- The drop and create calls of 02-create-collection.js, and the `programas` collection, are not part of this model.
- The CRUD helpers, the data-loading scripts, the aggregations and the change streams (01-, 02-Insert-date.js, 04-, 06-, 07- and insert-data.js) are not part of this model.
- The commented-out deletion of in-progress enrollments at graduation (scripts/05-Transactions.js:293-294) is not modelled, because it is not part of the program.
