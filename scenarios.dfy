/**
 * A course of three lessons studied from scratch: resume starts at the first
 * lesson, each completion moves the bar to 33, 67 and 100 percent, and a
 * finished course resumes at its last lesson. A jump on a fresh record
 * bookmarks without completing anything.
 */
module Scenarios {
  import opened Types
  import opened Progress
  import opened LearningCenter

  const L1: Lesson := Lesson("l1", "", "")
  const L2: Lesson := Lesson("l2", "", "")
  const L3: Lesson := Lesson("l3", "", "")
  const K: Course := Course("k", "", "", "", [L1, L2, L3])

  /** The record after each completion, as a map literal. */
  function After(ids: seq<string>, last: string): UserProgress {
    map["k" := ProgressRecord(Some(ids), Some(last))]
  }

  lemma StartsAtFirstLesson()
    ensures NextLesson(K, map[]) == Some(L1)
  {
  }

  lemma FirstCompletion()
    ensures MarkComplete(map[], K, L1) == After(["l1"], "l1")
  {
    AddToDistinct([], "l1");
  }

  lemma FirstPercent()
    ensures Percent(CourseProgress(K, After(["l1"], "l1"))) == Some(33)
  {
    assert K.lessons[..2] == [L1, L2] && [L1, L2][..1] == [L1] && [L1][..0] == [];
    assert CompletedLessons(K.lessons, ["l1"]) == [L1];
    assert Round(1.0 / 3.0 * 100.0) == 33;
  }

  lemma SecondCompletion()
    ensures MarkComplete(After(["l1"], "l1"), K, L2) == After(["l1", "l2"], "l2")
  {
    assert "l2" !in ["l1"];
    AddToDistinct(["l1"], "l2");
    assert CompletedOrEmpty(RecordOrFresh(After(["l1"], "l1"), K.key)) + [L2.id] == ["l1", "l2"];
    assert After(["l1"], "l1")[K.key := ProgressRecord(Some(["l1", "l2"]), Some("l2"))] == After(["l1", "l2"], "l2");
  }

  lemma SecondPercent()
    ensures Percent(CourseProgress(K, After(["l1", "l2"], "l2"))) == Some(67)
  {
    assert K.lessons[..2] == [L1, L2] && [L1, L2][..1] == [L1] && [L1][..0] == [];
    assert CompletedLessons(K.lessons, ["l1", "l2"]) == [L1, L2];
    assert Round(2.0 / 3.0 * 100.0) == 67;
  }

  lemma ThirdCompletion()
    ensures MarkComplete(After(["l1", "l2"], "l2"), K, L3) == After(["l1", "l2", "l3"], "l3")
  {
    assert "l3" !in ["l1", "l2"];
    AddToDistinct(["l1", "l2"], "l3");
    assert CompletedOrEmpty(RecordOrFresh(After(["l1", "l2"], "l2"), K.key)) + [L3.id] == ["l1", "l2", "l3"];
    assert After(["l1", "l2"], "l2")[K.key := ProgressRecord(Some(["l1", "l2", "l3"]), Some("l3"))]
        == After(["l1", "l2", "l3"], "l3");
  }

  lemma FinishedCourse()
    ensures Percent(CourseProgress(K, After(["l1", "l2", "l3"], "l3"))) == Some(100)
    ensures NextLesson(K, After(["l1", "l2", "l3"], "l3")) == Some(L3)
  {
    ProgressFull(K, After(["l1", "l2", "l3"], "l3"));
    assert Round(1.0 * 100.0) == 100;
  }

  lemma JumpDoesNotComplete()
    ensures JumpTo(map[], K, L2) == After([], "l2")
    ensures Percent(CourseProgress(K, After([], "l2"))) == Some(0)
  {
    NothingCompleted(K.lessons);
  }
}
