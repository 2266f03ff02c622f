/**
 * The progress calculator: the completion ratio of a course, the lesson to
 * resume, and the rounded and clamped percentage shown in the progress bar.
 */
module Progress {
  import opened Types

  /** A completion ratio as the page computes it: an exact rational, or the
      NaN that `0 / 0` yields for a course without lessons. */
  datatype Ratio = Value(q: real) | NotANumber

  /** The lessons whose id is in `completed`, in course order
      (`lessons.filter(l => completed.includes(l.id))`). */
  function CompletedLessons(lessons: seq<Lesson>, completed: seq<string>): (r: seq<Lesson>)
    ensures |r| <= |lessons|
    ensures forall l :: l in r <==> l in lessons && l.id in completed
  {
    if lessons == [] then []
    else
      var rest := CompletedLessons(lessons[..|lessons| - 1], completed);
      var l := lessons[|lessons| - 1];
      assert lessons == lessons[..|lessons| - 1] + [l];
      if l.id in completed then rest + [l] else rest
  }

  /** The positions of the course's lessons whose id is completed. */
  ghost function DoneIndices(lessons: seq<Lesson>, completed: seq<string>): set<int> {
    set i | 0 <= i < |lessons| && lessons[i].id in completed
  }

  /** Dropping the last lesson drops at most its own position. */
  lemma DoneIndicesStep(lessons: seq<Lesson>, completed: seq<string>)
    requires lessons != []
    ensures var n := |lessons| - 1;
            n !in DoneIndices(lessons[..n], completed)
            && DoneIndices(lessons, completed)
               == DoneIndices(lessons[..n], completed) + (if lessons[n].id in completed then {n} else {})
  {
  }

  /** The filtered count equals the number of completed positions. */
  lemma {:induction false} CompletedCountIsIndexCount(lessons: seq<Lesson>, completed: seq<string>)
    ensures |CompletedLessons(lessons, completed)| == |DoneIndices(lessons, completed)|
  {
    if lessons != [] {
      var n := |lessons| - 1;
      CompletedCountIsIndexCount(lessons[..n], completed);
      DoneIndicesStep(lessons, completed);
    }
  }

  /** The count depends only on which of the course's own ids are completed. */
  lemma {:induction false} CountDependsOnCourseIdsOnly(lessons: seq<Lesson>, c1: seq<string>, c2: seq<string>)
    requires forall l :: l in lessons ==> (l.id in c1 <==> l.id in c2)
    ensures CompletedLessons(lessons, c1) == CompletedLessons(lessons, c2)
  {
    if lessons != [] {
      CountDependsOnCourseIdsOnly(lessons[..|lessons| - 1], c1, c2);
    }
  }

  /** Completing more ids never lowers the count. */
  lemma {:induction false} CountMonotone(lessons: seq<Lesson>, c1: seq<string>, c2: seq<string>)
    requires forall x :: x in c1 ==> x in c2
    ensures |CompletedLessons(lessons, c1)| <= |CompletedLessons(lessons, c2)|
  {
    if lessons != [] {
      CountMonotone(lessons[..|lessons| - 1], c1, c2);
    }
  }

  /** Completing the id of a lesson not yet completed raises the count. */
  lemma {:induction false} CountStrictlyGrows(lessons: seq<Lesson>, completed: seq<string>, k: nat)
    requires k < |lessons| && lessons[k].id !in completed
    ensures |CompletedLessons(lessons, completed)| < |CompletedLessons(lessons, completed + [lessons[k].id])|
  {
    var n := |lessons| - 1;
    var init := lessons[..n];
    var bigger := completed + [lessons[k].id];
    var last := lessons[n];
    assert lessons == init + [last];
    if k < n {
      assert init[k] == lessons[k];
      CountStrictlyGrows(init, completed, k);
    } else {
      CountMonotone(init, completed, bigger);
    }
    assert last.id in completed ==> last.id in bigger;
  }

  /** With every lesson completed, the count is the full lesson count. */
  lemma {:induction false} CountAllDone(lessons: seq<Lesson>, completed: seq<string>)
    requires forall l :: l in lessons ==> l.id in completed
    ensures |CompletedLessons(lessons, completed)| == |lessons|
  {
    if lessons != [] {
      CountAllDone(lessons[..|lessons| - 1], completed);
    }
  }

  /** `courseProgress`: the share of the course's lessons that are completed. */
  function CourseProgress(course: Course, prog: UserProgress): (r: Ratio)
    ensures course.key !in prog ==> r == Value(0.0)
    ensures course.key in prog && prog[course.key].completed.None? ==> r == Value(0.0)
    ensures r.NotANumber? <==> course.key in prog && prog[course.key].completed.Some? && |course.lessons| == 0
    ensures r.Value? ==> 0.0 <= r.q <= 1.0
  {
    if course.key !in prog || prog[course.key].completed.None? then Value(0.0)
    else
      var done := |CompletedLessons(course.lessons, prog[course.key].completed.value)|;
      if |course.lessons| == 0 then NotANumber
      else
        UnitRatio(done as real, |course.lessons| as real);
        Value(done as real / |course.lessons| as real)
  }

  lemma UnitRatio(a: real, n: real)
    requires 0.0 <= a <= n && n > 0.0
    ensures 0.0 <= a / n <= 1.0
  {
  }

  /** For a started course with lessons, the ratio is the number of completed
      lesson positions over the full lesson count. */
  lemma CourseProgressIsFraction(course: Course, prog: UserProgress)
    requires course.key in prog && prog[course.key].completed.Some? && |course.lessons| > 0
    ensures CourseProgress(course, prog)
         == Value(|DoneIndices(course.lessons, prog[course.key].completed.value)| as real / |course.lessons| as real)
  {
    CompletedCountIsIndexCount(course.lessons, prog[course.key].completed.value);
  }

  /** Completed ids that are not lessons of the course do not change the ratio. */
  lemma ProgressIgnoresForeignIds(course: Course, prog: UserProgress, extra: seq<string>)
    requires course.key in prog && prog[course.key].completed.Some?
    requires forall x :: x in extra ==> x !in LessonIds(course.lessons)
    ensures (var rec := prog[course.key];
             CourseProgress(course, prog[course.key := rec.(completed := Some(rec.completed.value + extra))])
             == CourseProgress(course, prog))
  {
    var rec := prog[course.key];
    forall l | l in course.lessons ensures (l.id in rec.completed.value + extra <==> l.id in rec.completed.value) {
      var i :| 0 <= i < |course.lessons| && course.lessons[i] == l;
      assert LessonIds(course.lessons)[i] == l.id;
    }
    CountDependsOnCourseIdsOnly(course.lessons, rec.completed.value + extra, rec.completed.value);
  }

  /** Adding ids to a course's completed list never lowers its ratio. */
  lemma ProgressMonotone(course: Course, prog: UserProgress, added: seq<string>)
    requires course.key in prog && prog[course.key].completed.Some?
    ensures (var rec := prog[course.key];
             var after := CourseProgress(course, prog[course.key := rec.(completed := Some(rec.completed.value + added))]);
             var before := CourseProgress(course, prog);
             before.Value? ==> after.Value? && before.q <= after.q)
  {
    var rec := prog[course.key];
    CountMonotone(course.lessons, rec.completed.value, rec.completed.value + added);
    if |course.lessons| > 0 {
      var n := |course.lessons| as real;
      var a := |CompletedLessons(course.lessons, rec.completed.value)| as real;
      var b := |CompletedLessons(course.lessons, rec.completed.value + added)| as real;
      DivideMonotone(a, b, n);
    }
  }

  /** Dividing by a positive lesson count keeps the order of the counts. */
  lemma DivideMonotone(a: real, b: real, n: real)
    requires a <= b && n > 0.0
    ensures a / n <= b / n
  {
  }

  lemma DivideStrictlyMonotone(a: real, b: real, n: real)
    requires a < b && n > 0.0
    ensures a / n < b / n
  {
  }

  /** A course whose every lesson is completed is at ratio one. */
  lemma ProgressFull(course: Course, prog: UserProgress)
    requires course.key in prog && prog[course.key].completed.Some? && |course.lessons| > 0
    requires forall l :: l in course.lessons ==> l.id in prog[course.key].completed.value
    ensures CourseProgress(course, prog) == Value(1.0)
  {
    var cs := prog[course.key].completed.value;
    CountAllDone(course.lessons, cs);
    WholeRatio(|course.lessons| as real);
  }

  lemma WholeRatio(n: real)
    requires n > 0.0
    ensures n / n == 1.0
  {
  }

  /** The first position whose lesson is not in `done`
      (`lessons.find(l => !doneSet.has(l.id))`). */
  function FirstIncomplete(lessons: seq<Lesson>, done: seq<string>): (r: Option<nat>)
    ensures r.Some? ==> r.value < |lessons| && lessons[r.value].id !in done
                        && forall j :: 0 <= j < r.value ==> lessons[j].id in done
    ensures r.None? ==> forall l :: l in lessons ==> l.id in done
  {
    if lessons == [] then None
    else if lessons[0].id !in done then Some(0)
    else match FirstIncomplete(lessons[1..], done)
      case None => None
      case Some(i) => Some(i + 1)
  }

  /** `nextLesson`: the lesson to resume. Without a record it is the first
      lesson; otherwise the first lesson not completed, or the last lesson
      once all are completed. Absent only for a course without lessons. */
  function NextLesson(course: Course, prog: UserProgress): (r: Option<Lesson>)
    ensures r.Some? <==> |course.lessons| > 0
    ensures r.Some? ==> r.value in course.lessons
    ensures course.key !in prog && |course.lessons| > 0 ==> r == Some(course.lessons[0])
    ensures course.key in prog ==>
              var done := CompletedOrEmpty(prog[course.key]);
              (forall l :: l in course.lessons ==> l.id in done) ==>
                |course.lessons| > 0 ==> r == Some(course.lessons[|course.lessons| - 1])
    ensures course.key in prog ==>
              var done := CompletedOrEmpty(prog[course.key]);
              (exists l :: l in course.lessons && l.id !in done) ==>
                exists k :: 0 <= k < |course.lessons| && r == Some(course.lessons[k])
                            && course.lessons[k].id !in done
                            && forall j :: 0 <= j < k ==> course.lessons[j].id in done
  {
    if |course.lessons| == 0 then None
    else if course.key !in prog then Some(course.lessons[0])
    else match FirstIncomplete(course.lessons, CompletedOrEmpty(prog[course.key]))
      case Some(k) => Some(course.lessons[k])
      case None => Some(course.lessons[|course.lessons| - 1])
  }

  /** `Math.round`: the nearest integer, halves rounded up. */
  function Round(x: real): (n: int)
    ensures x - 0.5 < n as real <= x + 0.5
  {
    (x + 0.5).Floor
  }

  /** The percentage the progress bar shows: `max(0, min(100, round(ratio * 100)))`,
      NaN passing through as an absent percentage. */
  function Percent(r: Ratio): (p: Option<int>)
    ensures p.Some? <==> r.Value?
    ensures p.Some? ==> 0 <= p.value <= 100
    ensures r.Value? && 0.0 <= r.q <= 1.0 ==> p == Some(Round(r.q * 100.0))
  {
    match r
    case NotANumber => None
    case Value(q) =>
      var n := Round(q * 100.0);
      Some(if n > 100 then 100 else if n < 0 then 0 else n)
  }

  /** On every ratio the calculator yields, the clamp is no-op: the bar and the
      unclamped badge (`Math.round(ratio * 100)`) show the same number, which is
      within half a point of the exact percentage. */
  lemma PercentOfProgress(course: Course, prog: UserProgress)
    requires CourseProgress(course, prog).Value?
    ensures (var q := CourseProgress(course, prog).q;
             Percent(Value(q)) == Some(Round(q * 100.0))
             && q * 100.0 - 0.5 < Round(q * 100.0) as real <= q * 100.0 + 0.5)
  {
  }
}
