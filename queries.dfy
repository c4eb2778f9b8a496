/**
 * The three queries the core issues against `inscripciones`: `countDocuments`,
 * `findOne` and `find`, over a filter document that compares the student, course
 * and period codes for equality and the status with `$in`. The collection is a
 * sequence in natural order; `findOne` returns the first matching document.
 */
module Queries {
  import opened Schema

  /** A filter document: a field left `None` is not constrained. */
  datatype Filter = Filter(
    student: Option<string>,
    course: Option<string>,
    period: Option<string>,
    statusIn: Option<seq<string>>)

  predicate Matches(e: Enrollment, f: Filter) {
    && (f.student.Some? ==> e.studentCode == f.student.value)
    && (f.course.Some? ==> e.courseCode == f.course.value)
    && (f.period.Some? ==> e.period == f.period.value)
    && (f.statusIn.Some? ==> e.status in f.statusIn.value)
  }

  /** `countDocuments(f)`: how many documents match; zero exactly when none does. */
  function CountDocuments(es: seq<Enrollment>, f: Filter): (n: nat)
    ensures n <= |es|
  {
    if es == [] then 0
    else CountDocuments(es[..|es| - 1], f) + (if Matches(es[|es| - 1], f) then 1 else 0)
  }

  /** The count is zero exactly when no document matches. */
  lemma {:induction false} CountZeroIffNoneMatch(es: seq<Enrollment>, f: Filter)
    ensures CountDocuments(es, f) == 0 <==> forall i :: 0 <= i < |es| ==> !Matches(es[i], f)
  {
    if es != [] {
      var n := |es| - 1;
      CountZeroIffNoneMatch(es[..n], f);
      assert forall i :: 0 <= i < n ==> es[..n][i] == es[i];
    }
  }

  /** `findOne(f)`: the position of the first matching document, if there is one. */
  function FindOne(es: seq<Enrollment>, f: Filter): (r: Option<nat>)
    ensures r.Some? ==> r.value < |es| && Matches(es[r.value], f)
    ensures r.Some? ==> forall j :: 0 <= j < r.value ==> !Matches(es[j], f)
    ensures r.None? <==> forall i :: 0 <= i < |es| ==> !Matches(es[i], f)
  {
    if es == [] then None
    else
      match FindOne(es[..|es| - 1], f)
      case Some(i) => Some(i)
      case None => if Matches(es[|es| - 1], f) then Some(|es| - 1) else None
  }

  /** `find(f).toArray()`: the matching documents, in collection order. */
  function Find(es: seq<Enrollment>, f: Filter): (r: seq<Enrollment>)
    ensures |r| == CountDocuments(es, f)
  {
    if es == [] then []
    else Find(es[..|es| - 1], f) + (if Matches(es[|es| - 1], f) then [es[|es| - 1]] else [])
  }

  /** Everything `find` returns is a document of the collection that matches the filter. */
  lemma {:induction false} FindSound(es: seq<Enrollment>, f: Filter)
    ensures forall x :: x in Find(es, f) ==> x in es && Matches(x, f)
  {
    if es != [] {
      var n := |es| - 1;
      var init := es[..n];
      FindSound(init, f);
      forall x | x in Find(es, f)
        ensures x in es && Matches(x, f)
      {
        if x in Find(init, f) {
          var j :| 0 <= j < n && init[j] == x;
          assert es[j] == x;
        } else {
          assert x == es[n];
        }
      }
    }
  }

  /** Every matching document of the collection is among those `find` returns. */
  lemma {:induction false} FindComplete(es: seq<Enrollment>, f: Filter)
    ensures forall i :: 0 <= i < |es| && Matches(es[i], f) ==> es[i] in Find(es, f)
  {
    if es != [] {
      var n := |es| - 1;
      var init := es[..n];
      FindComplete(init, f);
      forall i | 0 <= i < |es| && Matches(es[i], f)
        ensures es[i] in Find(es, f)
      {
        if i < n {
          assert init[i] == es[i];
          assert es[i] in Find(init, f);
        }
      }
    }
  }

  /** Replacing one document changes the count by what the old and the new document contribute. */
  lemma {:induction false} CountAfterUpdate(es: seq<Enrollment>, i: nat, e: Enrollment, f: Filter)
    requires i < |es|
    ensures CountDocuments(es[i := e], f)
            == CountDocuments(es, f) - (if Matches(es[i], f) then 1 else 0) + (if Matches(e, f) then 1 else 0)
  {
    var es' := es[i := e];
    var n := |es| - 1;
    var init, init' := es[..n], es'[..n];
    if i == n {
      assert init' == init;
    } else {
      assert init' == init[i := e];
      CountAfterUpdate(init, i, e, f);
      assert es'[n] == es[n];
    }
    assert CountDocuments(es', f) == CountDocuments(init', f) + (if Matches(es'[n], f) then 1 else 0);
    assert CountDocuments(es, f) == CountDocuments(init, f) + (if Matches(es[n], f) then 1 else 0);
  }

  /** Documents appended at the end shift no position: the first match stays first. */
  lemma {:induction false} FindOneAfterAppend(es: seq<Enrollment>, extra: seq<Enrollment>, f: Filter)
    requires FindOne(es, f).Some?
    ensures FindOne(es + extra, f) == FindOne(es, f)
  {
    if extra == [] {
      assert es + extra == es;
    } else {
      var p := extra[..|extra| - 1];
      var all := es + extra;
      assert all[..|all| - 1] == es + p;
      FindOneAfterAppend(es, p, f);
      assert FindOne(all[..|all| - 1], f).Some?;
    }
  }

  /** Replacing a document that neither matched nor matches leaves `find` unchanged. */
  lemma {:induction false} FindAfterUnmatchedUpdate(es: seq<Enrollment>, i: nat, e: Enrollment, f: Filter)
    requires i < |es|
    requires !Matches(es[i], f) && !Matches(e, f)
    ensures Find(es[i := e], f) == Find(es, f)
  {
    var es' := es[i := e];
    var n := |es| - 1;
    if i == n {
      assert es'[..n] == es[..n];
    } else {
      assert es'[..n] == es[..n][i := e];
      FindAfterUnmatchedUpdate(es[..n], i, e, f);
      assert es'[n] == es[n];
    }
  }

  /** Appending documents none of which matches leaves `find` unchanged. */
  lemma {:induction false} FindAfterUnmatchedAppend(es: seq<Enrollment>, extra: seq<Enrollment>, f: Filter)
    requires forall j :: 0 <= j < |extra| ==> !Matches(extra[j], f)
    ensures Find(es + extra, f) == Find(es, f)
  {
    if extra == [] {
      assert es + extra == es;
    } else {
      var p := extra[..|extra| - 1];
      FindAfterUnmatchedAppend(es, p, f);
      assert (es + extra)[..|es + extra| - 1] == es + p;
    }
  }

  /** Appending documents none of which matches leaves the count unchanged. */
  lemma {:induction false} CountAfterUnmatchedAppend(es: seq<Enrollment>, extra: seq<Enrollment>, f: Filter)
    requires forall j :: 0 <= j < |extra| ==> !Matches(extra[j], f)
    ensures CountDocuments(es + extra, f) == CountDocuments(es, f)
  {
    FindAfterUnmatchedAppend(es, extra, f);
  }
}
