/**
 * The learning center's derived lists and its two progress mutations. Each
 * mutation builds the new progress map that the page hands to the store as a
 * `progress` patch.
 */
module LearningCenter {
  import opened Types
  import opened Progress
  import Catalog

  /** `xs` is `ys` with some elements left out, the rest in their order. */
  predicate IsSubsequence<T(==)>(xs: seq<T>, ys: seq<T>) {
    if xs == [] then true
    else if ys == [] then false
    else if xs[0] == ys[0] then IsSubsequence(xs[1..], ys[1..])
    else IsSubsequence(xs, ys[1..])
  }

  /** `purchasedCourses`: the catalog courses whose key was purchased, in catalog order. */
  function PurchasedCourses(catalog: seq<Course>, purchased: seq<string>): (r: seq<Course>)
    ensures forall c :: c in r <==> c in catalog && c.key in purchased
    ensures IsSubsequence(r, catalog)
  {
    if catalog == [] then []
    else
      var rest := PurchasedCourses(catalog[1..], purchased);
      if catalog[0].key in purchased then [catalog[0]] + rest else rest
  }

  /** A "recently studied" entry: a course and the id of its last lesson. */
  datatype RecentEntry = RecentEntry(course: Course, last: string)

  /** The study bookmark of a course, if its record has one. */
  function LastOf(prog: UserProgress, key: string): (r: Option<string>)
    ensures r.Some? <==> key in prog && prog[key].last.Some?
    ensures r.Some? ==> r.value == prog[key].last.value
  {
    if key in prog then prog[key].last else None
  }

  function CoursesOf(entries: seq<RecentEntry>): (r: seq<Course>)
    ensures |r| == |entries|
    ensures forall i :: 0 <= i < |entries| ==> r[i] == entries[i].course
  {
    seq(|entries|, i requires 0 <= i < |entries| => entries[i].course)
  }

  /** `recent`: the given courses whose bookmark is set and non-empty (an empty
      string is falsy), paired with it, in the given order. */
  function Recent(courses: seq<Course>, prog: UserProgress): (r: seq<RecentEntry>)
    ensures forall e :: e in r <==> e.course in courses && LastOf(prog, e.course.key) == Some(e.last) && e.last != ""
    ensures IsSubsequence(CoursesOf(r), courses)
  {
    if courses == [] then []
    else
      var rest := Recent(courses[1..], prog);
      var c := courses[0];
      assert CoursesOf([RecentEntry(c, "")] + rest)[1..] == CoursesOf(rest);
      match LastOf(prog, c.key)
      case Some(last) =>
        if last != "" then
          assert CoursesOf([RecentEntry(c, last)] + rest)[1..] == CoursesOf(rest);
          [RecentEntry(c, last)] + rest
        else rest
      case None => rest
  }

  /** `a` occurs in `s` before the first occurrence of `b`. */
  ghost predicate OccursFirst(s: seq<string>, a: string, b: string) {
    exists p :: 0 <= p < |s| && s[p] == a && b !in s[..p]
  }

  /** `Array.from(new Set(s))`: the first occurrence of each element, in order
      of first occurrence (`DedupKeepsFirstOccurrenceOrder`). */
  function Dedup(s: seq<string>): (r: seq<string>)
    ensures NoDuplicates(r)
    ensures forall x :: x in r <==> x in s
  {
    if s == [] then []
    else
      var d := Dedup(s[..|s| - 1]);
      var x := s[|s| - 1];
      assert s == s[..|s| - 1] + [x];
      if x in d then d else d + [x]
  }

  /** The de-duplicated list keeps the order of first occurrence: of any two
      of its elements, the earlier one occurs in the input before the later
      one first does. */
  lemma {:induction false} DedupKeepsFirstOccurrenceOrder(s: seq<string>)
    ensures forall i, j :: 0 <= i < j < |Dedup(s)| ==> OccursFirst(s, Dedup(s)[i], Dedup(s)[j])
  {
    if s != [] {
      var init := s[..|s| - 1];
      var x := s[|s| - 1];
      var d := Dedup(init);
      assert s == init + [x];
      DedupKeepsFirstOccurrenceOrder(init);
      DedupOrderExtends(init, x, d);
      if x !in d {
        DedupOrderAppend(init, x, d);
      }
    }
  }

  /** Order of first occurrence survives appending an element to the input. */
  lemma DedupOrderExtends(init: seq<string>, x: string, d: seq<string>)
    requires forall i, j :: 0 <= i < j < |d| ==> OccursFirst(init, d[i], d[j])
    ensures forall i, j :: 0 <= i < j < |d| ==> OccursFirst(init + [x], d[i], d[j])
  {
    var s := init + [x];
    forall i, j | 0 <= i < j < |d| ensures OccursFirst(s, d[i], d[j]) {
      var p :| 0 <= p < |init| && init[p] == d[i] && d[j] !in init[..p];
      assert s[p] == d[i] && s[..p] == init[..p];
    }
  }

  /** An element new to the input occurs after every element already in it. */
  lemma DedupOrderAppend(init: seq<string>, x: string, d: seq<string>)
    requires x !in init
    requires forall y :: y in d ==> y in init
    ensures forall i :: 0 <= i < |d| ==> OccursFirst(init + [x], d[i], x)
  {
    var s := init + [x];
    forall i | 0 <= i < |d| ensures OccursFirst(s, d[i], x) {
      assert d[i] in d;
      var p :| 0 <= p < |init| && init[p] == d[i];
      assert s[p] == d[i] && s[..p] == init[..p];
    }
  }

  /** A list without duplicates passes through the set unchanged. */
  lemma {:induction false} DedupOfDistinct(s: seq<string>)
    requires NoDuplicates(s)
    ensures Dedup(s) == s
  {
    if s != [] {
      var init := s[..|s| - 1];
      DedupOfDistinct(init);
      assert s[|s| - 1] !in init;
    }
  }

  /** Adding `x` to a set built from `s` keeps `s`'s order and appends `x`
      only when it is new. */
  lemma AddToDistinct(s: seq<string>, x: string)
    requires NoDuplicates(s)
    ensures Dedup(s + [x]) == if x in s then s else s + [x]
  {
    assert (s + [x])[..|s|] == s;
    DedupOfDistinct(s);
  }

  /** The record a mutation starts from: the course's record, or a fresh one. */
  function RecordOrFresh(prog: UserProgress, key: string): (r: ProgressRecord)
    ensures key in prog ==> r == prog[key]
    ensures key !in prog ==> r == ProgressRecord(Some([]), None)
  {
    if key in prog then prog[key] else ProgressRecord(Some([]), None)
  }

  /** `markComplete`: adds the lesson's id to the course's completed ids as a
      set and bookmarks it; every other course's record stays as it was. */
  function MarkComplete(prog: UserProgress, c: Course, l: Lesson): (r: UserProgress)
    ensures r.Keys == prog.Keys + {c.key}
    ensures forall k :: k in prog && k != c.key ==> r[k] == prog[k]
    ensures r[c.key].last == Some(l.id)
    ensures r[c.key].completed.Some?
    ensures var cs := r[c.key].completed.value;
            NoDuplicates(cs)
            && forall x :: x in cs <==> x in CompletedOrEmpty(RecordOrFresh(prog, c.key)) || x == l.id
  {
    var info := RecordOrFresh(prog, c.key);
    prog[c.key := ProgressRecord(Some(Dedup(CompletedOrEmpty(info) + [l.id])), Some(l.id))]
  }

  /** When the course's completed list has no duplicates, marking keeps it
      in order and appends the id only if it is not there yet. */
  lemma MarkCompleteAppends(prog: UserProgress, c: Course, l: Lesson)
    requires NoDuplicates(CompletedOrEmpty(RecordOrFresh(prog, c.key)))
    ensures var old_cs := CompletedOrEmpty(RecordOrFresh(prog, c.key));
            MarkComplete(prog, c, l)[c.key].completed
            == Some(if l.id in old_cs then old_cs else old_cs + [l.id])
  {
    AddToDistinct(CompletedOrEmpty(RecordOrFresh(prog, c.key)), l.id);
  }

  /** Marking the same lesson twice is the same as marking it once. */
  lemma MarkCompleteIdempotent(prog: UserProgress, c: Course, l: Lesson)
    ensures MarkComplete(MarkComplete(prog, c, l), c, l) == MarkComplete(prog, c, l)
  {
    var once := MarkComplete(prog, c, l);
    MarkCompleteFixedPoint(once, c, l, once[c.key].completed.value);
  }

  /** A record that already lists the lesson, without duplicates, and
      bookmarks it is left as it is. */
  lemma MarkCompleteFixedPoint(prog: UserProgress, c: Course, l: Lesson, cs: seq<string>)
    requires c.key in prog && prog[c.key] == ProgressRecord(Some(cs), Some(l.id))
    requires NoDuplicates(cs) && l.id in cs
    ensures MarkComplete(prog, c, l) == prog
  {
    AddToDistinct(cs, l.id);
    assert prog[c.key := ProgressRecord(Some(cs), Some(l.id))] == prog;
  }

  /** A missing record or list reads like an empty list of completed ids. */
  lemma {:induction false} NothingCompleted(lessons: seq<Lesson>)
    ensures CompletedLessons(lessons, []) == []
  {
    if lessons != [] {
      NothingCompleted(lessons[..|lessons| - 1]);
    }
  }

  /** For a course with lessons, the ratio is the share of lessons whose id is
      in the list a mutation would start from. */
  lemma ProgressOfRecordOrFresh(prog: UserProgress, c: Course)
    requires |c.lessons| > 0
    ensures CourseProgress(c, prog)
         == Value(|CompletedLessons(c.lessons, CompletedOrEmpty(RecordOrFresh(prog, c.key)))| as real / |c.lessons| as real)
  {
    NothingCompleted(c.lessons);
  }

  /** The ratio after marking: the share of lessons in the old list plus the id. */
  lemma ProgressAfterMark(prog: UserProgress, c: Course, l: Lesson)
    requires |c.lessons| > 0
    ensures CourseProgress(c, MarkComplete(prog, c, l))
         == Value(|CompletedLessons(c.lessons, CompletedOrEmpty(RecordOrFresh(prog, c.key)) + [l.id])| as real / |c.lessons| as real)
  {
    var old_cs := CompletedOrEmpty(RecordOrFresh(prog, c.key));
    var new_cs := MarkComplete(prog, c, l)[c.key].completed.value;
    CountDependsOnCourseIdsOnly(c.lessons, new_cs, old_cs + [l.id]);
  }

  /** Marking any lesson never lowers the course's ratio. */
  lemma MarkCompleteNeverLowers(prog: UserProgress, c: Course, l: Lesson)
    requires |c.lessons| > 0
    ensures CourseProgress(c, prog).Value? && CourseProgress(c, MarkComplete(prog, c, l)).Value?
    ensures CourseProgress(c, prog).q <= CourseProgress(c, MarkComplete(prog, c, l)).q
  {
    var old_cs := CompletedOrEmpty(RecordOrFresh(prog, c.key));
    ProgressOfRecordOrFresh(prog, c);
    ProgressAfterMark(prog, c, l);
    CountMonotone(c.lessons, old_cs, old_cs + [l.id]);
    DivideMonotone(|CompletedLessons(c.lessons, old_cs)| as real,
                   |CompletedLessons(c.lessons, old_cs + [l.id])| as real, |c.lessons| as real);
  }

  /** Marking the suggested next lesson of an unfinished course raises its ratio. */
  lemma MarkNextLessonAdvances(prog: UserProgress, c: Course)
    requires |c.lessons| > 0
    requires exists x :: x in c.lessons && x.id !in CompletedOrEmpty(RecordOrFresh(prog, c.key))
    ensures CourseProgress(c, prog).q < CourseProgress(c, MarkComplete(prog, c, NextLesson(c, prog).value)).q
  {
    var l := NextLesson(c, prog).value;
    var old_cs := CompletedOrEmpty(RecordOrFresh(prog, c.key));
    ProgressOfRecordOrFresh(prog, c);
    ProgressAfterMark(prog, c, l);
    var k: nat;
    if c.key in prog {
      k :| 0 <= k < |c.lessons| && l == c.lessons[k] && c.lessons[k].id !in old_cs;
    } else {
      k := 0;
    }
    CountStrictlyGrows(c.lessons, old_cs, k);
    DivideStrictlyMonotone(|CompletedLessons(c.lessons, old_cs)| as real,
                           |CompletedLessons(c.lessons, old_cs + [l.id])| as real, |c.lessons| as real);
  }

  /** `jumpTo`: bookmarks the lesson and keeps the completed ids as they were
      (a fresh record starts with none); every other course's record stays. */
  function JumpTo(prog: UserProgress, c: Course, l: Lesson): (r: UserProgress)
    ensures r.Keys == prog.Keys + {c.key}
    ensures forall k :: k in prog && k != c.key ==> r[k] == prog[k]
    ensures r[c.key].last == Some(l.id)
    ensures c.key in prog ==> r[c.key].completed == prog[c.key].completed
    ensures c.key !in prog ==> r[c.key].completed == Some([])
  {
    var info := RecordOrFresh(prog, c.key);
    prog[c.key := info.(last := Some(l.id))]
  }

  /** Navigation is not completion: for a course with lessons, jumping to any
      lesson changes neither its ratio nor its suggested next lesson. */
  lemma JumpToKeepsProgress(prog: UserProgress, c: Course, l: Lesson)
    requires |c.lessons| > 0
    ensures CourseProgress(c, JumpTo(prog, c, l)) == CourseProgress(c, prog)
    ensures NextLesson(c, JumpTo(prog, c, l)) == NextLesson(c, prog)
  {
    if c.key !in prog {
      NothingCompleted(c.lessons);
    }
  }

  /** A course without lessons is the one place where jumping shows: the
      fresh record turns the literal 0 into `0 / 0`. */
  lemma JumpToEmptyCourse(prog: UserProgress, c: Course, l: Lesson)
    requires |c.lessons| == 0 && c.key !in prog
    ensures CourseProgress(c, prog) == Value(0.0)
    ensures CourseProgress(c, JumpTo(prog, c, l)) == NotANumber
  {
  }

  /** Neither mutation changes the ratio or next lesson of another course. */
  lemma MutationsKeepOtherCourses(prog: UserProgress, c: Course, l: Lesson, other: Course)
    requires other.key != c.key
    ensures CourseProgress(other, MarkComplete(prog, c, l)) == CourseProgress(other, prog)
    ensures CourseProgress(other, JumpTo(prog, c, l)) == CourseProgress(other, prog)
    ensures NextLesson(other, MarkComplete(prog, c, l)) == NextLesson(other, prog)
    ensures NextLesson(other, JumpTo(prog, c, l)) == NextLesson(other, prog)
  {
  }

  /** A record fits its course when its ids are that course's lesson ids. */
  predicate RecordFits(c: Course, rec: ProgressRecord) {
    (forall x :: x in CompletedOrEmpty(rec) ==> x in LessonIds(c.lessons))
    && (rec.last.Some? ==> rec.last.value in LessonIds(c.lessons))
  }

  /** Every record of a catalog course fits that course. */
  predicate ProgressFits(catalog: seq<Course>, prog: UserProgress) {
    forall i :: 0 <= i < |catalog| && catalog[i].key in prog ==> RecordFits(catalog[i], prog[catalog[i].key])
  }

  /** The page only ever marks or jumps to a lesson of the course shown, so
      both mutations keep every record fitting its course; the lookup of the
      bookmarked lesson in the "recently studied" list then always succeeds. */
  lemma MutationsKeepProgressFitting(catalog: seq<Course>, prog: UserProgress, c: Course, l: Lesson)
    requires Catalog.UniqueKeys(catalog) && c in catalog && l in c.lessons
    requires ProgressFits(catalog, prog)
    ensures ProgressFits(catalog, MarkComplete(prog, c, l))
    ensures ProgressFits(catalog, JumpTo(prog, c, l))
    ensures forall e :: e in Recent(catalog, MarkComplete(prog, c, l)) ==> exists x :: x in e.course.lessons && x.id == e.last
    ensures forall e :: e in Recent(catalog, JumpTo(prog, c, l)) ==> exists x :: x in e.course.lessons && x.id == e.last
  {
    var ci :| 0 <= ci < |catalog| && catalog[ci] == c;
    var li :| 0 <= li < |c.lessons| && c.lessons[li] == l;
    assert LessonIds(c.lessons)[li] == l.id;
    var marked := MarkComplete(prog, c, l);
    var jumped := JumpTo(prog, c, l);
    forall i | 0 <= i < |catalog| && catalog[i].key in marked
      ensures RecordFits(catalog[i], marked[catalog[i].key])
    {
      if catalog[i].key == c.key {
        assert i == ci;
      }
    }
    forall i | 0 <= i < |catalog| && catalog[i].key in jumped
      ensures RecordFits(catalog[i], jumped[catalog[i].key])
    {
      if catalog[i].key == c.key {
        assert i == ci;
      }
    }
    RecentLastIsALesson(catalog, marked);
    RecentLastIsALesson(catalog, jumped);
  }

  /** Under fitting progress, each recent bookmark names a lesson of its course. */
  lemma RecentLastIsALesson(catalog: seq<Course>, prog: UserProgress)
    requires ProgressFits(catalog, prog)
    ensures forall e :: e in Recent(catalog, prog) ==> exists x :: x in e.course.lessons && x.id == e.last
  {
    forall e | e in Recent(catalog, prog) ensures exists x :: x in e.course.lessons && x.id == e.last {
      var i :| 0 <= i < |catalog| && catalog[i] == e.course;
      var j :| 0 <= j < |e.course.lessons| && LessonIds(e.course.lessons)[j] == e.last;
      assert e.course.lessons[j].id == e.last;
    }
  }

  /** The page's course cards: each purchased catalog course has a next lesson
      (the non-null assertion on `nextLesson` relies on this). */
  lemma NextLessonOnPurchasedCatalog(purchased: seq<string>, prog: UserProgress)
    ensures forall c :: c in PurchasedCourses(Catalog.Courses, purchased) ==> NextLesson(c, prog).Some?
  {
    Catalog.CatalogWellFormed();
  }
}
