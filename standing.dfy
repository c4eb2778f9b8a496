/**
 * The academic standing calculator: a student's completed credits and cumulative
 * average, recomputed in full from the student's finalized enrollments and the
 * course catalog. Grades are reals; of JavaScript's double arithmetic only the
 * NaN that a missing grade produces is modelled, and the two-decimal message
 * formatting is not.
 */
module Standing {
  import opened Schema
  import opened Queries

  /** The filter that gathers a student's "Aprobada" and "Reprobada" enrollments, in any period. */
  function FinalizedFilter(student: string): Filter {
    Filter(Some(student), None, None, Some([Passed, Failed]))
  }

  /** The credits of a course, or 0 when the course has no record in the catalog. */
  function CreditsOf(courses: map<string, Course>, code: string): int {
    if code in courses then courses[code].credits else 0
  }

  /**
   * The final grade as it enters the products when every item carries the field:
   * a null grade multiplies as 0. A missing field makes the product NaN instead,
   * which `WeightedSum` tracks.
   */
  function GradeOf(e: Enrollment): real {
    match e.finalGrade
    case Grade(g) => g
    case _ => 0.0
  }

  /** Some item has no `calificacion_final` field at all. */
  predicate HasAbsentGrade(items: seq<Enrollment>) {
    exists i :: 0 <= i < |items| && items[i].finalGrade.Absent?
  }

  /** A JavaScript number as the recomputation produces it: NaN, or a real value. */
  datatype Number = NaN | Num(value: real)

  /** JavaScript `+` on numbers: NaN absorbs the other operand. */
  function Plus(a: Number, b: Number): Number {
    if a.NaN? || b.NaN? then NaN else Num(a.value + b.value)
  }

  /** JavaScript `/` by a non-zero divisor: NaN stays NaN. */
  function Over(a: Number, d: real): Number
    requires d != 0.0
  {
    if a.NaN? then NaN else Num(a.value / d)
  }

  /** `item.calificacion_final * creditos`: a missing field gives NaN, a null one multiplies as 0. */
  function Times(f: GradeField, credits: int): Number {
    match f
    case Absent => NaN
    case Null => Num(0.0)
    case Grade(g) => Num(g * credits as real)
  }

  /** `totalCreditos` after the loop over `items`. */
  function TotalCredits(items: seq<Enrollment>, courses: map<string, Course>): int {
    if items == [] then 0
    else TotalCredits(items[..|items| - 1], courses) + CreditsOf(courses, items[|items| - 1].courseCode)
  }

  /** `totalPonderado` after the loop over `items`. */
  function WeightedTotal(items: seq<Enrollment>, courses: map<string, Course>): real {
    if items == [] then 0.0
    else
      var last := items[|items| - 1];
      WeightedTotal(items[..|items| - 1], courses) + GradeOf(last) * CreditsOf(courses, last.courseCode) as real
  }

  /** `totalPonderado` after the loop over `items`, NaN included. */
  function WeightedSum(items: seq<Enrollment>, courses: map<string, Course>): Number {
    if items == [] then Num(0.0)
    else
      var last := items[|items| - 1];
      Plus(WeightedSum(items[..|items| - 1], courses), Times(last.finalGrade, CreditsOf(courses, last.courseCode)))
  }

  /** The running sum is NaN exactly when some item lacks its grade; otherwise it is the real weighted total. */
  lemma {:induction false} WeightedSumIsTotal(items: seq<Enrollment>, courses: map<string, Course>)
    ensures WeightedSum(items, courses).NaN? <==> HasAbsentGrade(items)
    ensures WeightedSum(items, courses).Num? ==> WeightedSum(items, courses).value == WeightedTotal(items, courses)
  {
    if items != [] {
      var init := items[..|items| - 1];
      var last := items[|items| - 1];
      var c := CreditsOf(courses, last.courseCode);
      WeightedSumIsTotal(init, courses);
      AbsentGradeStep(items);
      assert WeightedSum(items, courses) == Plus(WeightedSum(init, courses), Times(last.finalGrade, c));
      assert Times(last.finalGrade, c).Num? ==> Times(last.finalGrade, c).value == GradeOf(last) * c as real;
    }
  }

  /** An item lacks its grade exactly when one of the earlier items or the last one does. */
  lemma AbsentGradeStep(items: seq<Enrollment>)
    requires items != []
    ensures HasAbsentGrade(items) <==> HasAbsentGrade(items[..|items| - 1]) || items[|items| - 1].finalGrade.Absent?
  {
    var init := items[..|items| - 1];
    if HasAbsentGrade(items) && !items[|items| - 1].finalGrade.Absent? {
      var i :| 0 <= i < |items| && items[i].finalGrade.Absent?;
      assert init[i] == items[i];
    }
    if HasAbsentGrade(init) {
      var i :| 0 <= i < |init| && init[i].finalGrade.Absent?;
      assert items[i] == init[i];
    }
  }

  /** One more item of the loop adds its credits and its weighted grade to the running totals. */
  lemma TotalsStep(items: seq<Enrollment>, j: nat, courses: map<string, Course>)
    requires j < |items|
    ensures TotalCredits(items[..j + 1], courses) == TotalCredits(items[..j], courses) + CreditsOf(courses, items[j].courseCode)
    ensures WeightedSum(items[..j + 1], courses)
            == Plus(WeightedSum(items[..j], courses), Times(items[j].finalGrade, CreditsOf(courses, items[j].courseCode)))
  {
    assert items[..j + 1][..j] == items[..j];
  }

  /** The average written back: the credit-weighted mean, or `grade` when no credit was counted. */
  function RecomputedAverage(items: seq<Enrollment>, courses: map<string, Course>, grade: real): real {
    var total := TotalCredits(items, courses);
    if total > 0 then WeightedTotal(items, courses) / total as real else grade
  }

  /** `nuevoPromedio` as JavaScript computes it: the weighted sum over the credits, or `grade` when no credit was counted. */
  function AverageWritten(items: seq<Enrollment>, courses: map<string, Course>, grade: real): Number {
    var total := TotalCredits(items, courses);
    if total > 0 then Over(WeightedSum(items, courses), total as real) else Num(grade)
  }

  /**
   * The average written back is NaN exactly when credits were counted and some
   * item lacks its grade; otherwise it is the recomputed average.
   */
  lemma AverageWrittenIsRecomputed(items: seq<Enrollment>, courses: map<string, Course>, grade: real)
    ensures AverageWritten(items, courses, grade).NaN? <==> TotalCredits(items, courses) > 0 && HasAbsentGrade(items)
    ensures AverageWritten(items, courses, grade).Num? ==>
              AverageWritten(items, courses, grade).value == RecomputedAverage(items, courses, grade)
  {
    WeightedSumIsTotal(items, courses);
  }

  /** Every catalogued course carries at least one credit. */
  predicate PositiveCredits(courses: map<string, Course>) {
    forall k :: k in courses ==> courses[k].credits >= 1
  }

  /** Every item's final grade, when present, is on the 0 to 5 scale. */
  predicate GradesInRange(items: seq<Enrollment>) {
    forall i :: 0 <= i < |items| ==> (items[i].finalGrade.Grade? ==> InGradeRange(items[i].finalGrade.value))
  }

  /** A grade on the scale times a non-negative credit count lies between 0 and 5 times the credits. */
  lemma ProductBounds(g: real, c: real)
    requires 0.0 <= g <= 5.0 && 0.0 <= c
    ensures 0.0 <= g * c <= 5.0 * c
  {
  }

  /** A quotient of a total bounded by 5 times a positive divisor is on the 0 to 5 scale. */
  lemma QuotientBounds(w: real, t: real)
    requires 0.0 < t && 0.0 <= w <= 5.0 * t
    ensures 0.0 <= w / t <= 5.0
  {
  }

  /** Two totals each bounded by 5 times their credits add up to one bounded by 5 times the credits' sum. */
  lemma SumBounds(w: real, p: real, t: real, c: real)
    requires 0.0 <= w <= 5.0 * t && 0.0 <= p <= 5.0 * c
    ensures 0.0 <= w + p <= 5.0 * (t + c)
  {
  }

  /** Multiplying by a non-zero factor and dividing by it again gives the value back. */
  lemma CancelFactor(g: real, t: real)
    requires t != 0.0
    ensures g * t / t == g
  {
  }

  /** With positive credits and grades in range, the weighted total lies between 0 and 5 times the credits. */
  lemma {:induction false} TotalsBounded(items: seq<Enrollment>, courses: map<string, Course>)
    requires PositiveCredits(courses) && GradesInRange(items)
    ensures TotalCredits(items, courses) >= 0
    ensures 0.0 <= WeightedTotal(items, courses) <= 5.0 * TotalCredits(items, courses) as real
  {
    if items != [] {
      var init := items[..|items| - 1];
      var last := items[|items| - 1];
      assert GradesInRange(init) by {
        forall i | 0 <= i < |init| ensures init[i] == items[i] { }
      }
      TotalsBounded(init, courses);
      var c := CreditsOf(courses, last.courseCode);
      var g := GradeOf(last);
      assert 0 <= c;
      assert 0.0 <= g <= 5.0;
      ProductBounds(g, c as real);
      var t := TotalCredits(init, courses);
      var w := WeightedTotal(init, courses);
      assert TotalCredits(items, courses) == t + c;
      assert WeightedTotal(items, courses) == w + g * c as real;
      assert 0.0 <= w <= 5.0 * t as real;
      SumBounds(w, g * c as real, t as real, c as real);
      assert (t + c) as real == t as real + c as real;
    }
  }

  /** The recomputed average stays on the 0 to 5 scale whenever the stored grades and the new grade do. */
  lemma RecomputedAverageInRange(items: seq<Enrollment>, courses: map<string, Course>, grade: real)
    requires PositiveCredits(courses) && GradesInRange(items) && InGradeRange(grade)
    ensures InGradeRange(RecomputedAverage(items, courses, grade))
    ensures TotalCredits(items, courses) >= 0
  {
    TotalsBounded(items, courses);
    var total := TotalCredits(items, courses);
    if total > 0 {
      QuotientBounds(WeightedTotal(items, courses), total as real);
    }
  }

  /**
   * The fallback to the new grade happens exactly when no item's course is in the
   * catalog: catalogued courses always contribute credits.
   */
  lemma {:induction false} NoCreditsIffUncatalogued(items: seq<Enrollment>, courses: map<string, Course>)
    requires PositiveCredits(courses)
    ensures TotalCredits(items, courses) >= 0
    ensures TotalCredits(items, courses) == 0 <==> forall i :: 0 <= i < |items| ==> items[i].courseCode !in courses
  {
    if items != [] {
      var init := items[..|items| - 1];
      NoCreditsIffUncatalogued(init, courses);
      assert forall i :: 0 <= i < |init| ==> init[i] == items[i];
    }
  }

  /** When every counted item carries the same grade `g`, the weighted total is `g` times the credits. */
  lemma {:induction false} UniformGradeTotal(items: seq<Enrollment>, courses: map<string, Course>, g: real)
    requires forall i :: 0 <= i < |items| ==> GradeOf(items[i]) == g
    ensures WeightedTotal(items, courses) == g * TotalCredits(items, courses) as real
  {
    if items != [] {
      var init := items[..|items| - 1];
      assert forall i :: 0 <= i < |init| ==> init[i] == items[i];
      UniformGradeTotal(init, courses, g);
      var c := CreditsOf(courses, items[|items| - 1].courseCode) as real;
      var t := TotalCredits(init, courses) as real;
      assert WeightedTotal(items, courses) == g * t + g * c;
      assert g * t + g * c == g * (t + c);
    }
  }

  /** ... and the recomputed average is `g` itself, whether or not any credit was counted. */
  lemma UniformGradeAverage(items: seq<Enrollment>, courses: map<string, Course>, g: real)
    requires forall i :: 0 <= i < |items| ==> GradeOf(items[i]) == g
    ensures RecomputedAverage(items, courses, g) == g
  {
    UniformGradeTotal(items, courses, g);
    var total := TotalCredits(items, courses);
    if total > 0 {
      var t := total as real;
      assert WeightedTotal(items, courses) == g * t;
      CancelFactor(g, t);
    }
  }

  /**
   * The stored standing agrees with a full recomputation from the student's
   * finalized enrollments, and that recomputation is a number: once credits are
   * counted, no finalized record lacks its grade (NaN cannot be stored).
   */
  predicate StandingConsistent(st: Student, es: seq<Enrollment>, courses: map<string, Course>) {
    var items := Find(es, FinalizedFilter(st.code));
    && st.credits == TotalCredits(items, courses)
    && (TotalCredits(items, courses) > 0 ==> !HasAbsentGrade(items))
    && (TotalCredits(items, courses) > 0 ==> st.average == WeightedTotal(items, courses) / TotalCredits(items, courses) as real)
  }

  /** Every stored student's standing agrees with its recomputation. */
  predicate AllStandingsConsistent(students: map<string, Student>, es: seq<Enrollment>, courses: map<string, Course>) {
    forall k :: k in students ==> StandingConsistent(students[k], es, courses)
  }
}
