/**
 * The data model of the learning center: lessons, courses, per-course
 * progress records, the persisted user state, and the static course catalog.
 */
module Types {

  datatype Option<+T> = None | Some(value: T)

  /** One lesson of a course; `duration` is display text only. */
  datatype Lesson = Lesson(id: string, title: string, duration: string)

  /** A course of the catalog; the order of `lessons` is the study order. */
  datatype Course = Course(key: string, title: string, track: string, tagline: string, lessons: seq<Lesson>)

  /**
   * The progress record of one course. `completed` is an optional list:
   * the page always writes one, but a reloaded blob is not checked, and the
   * readers guard against a missing list.
   */
  datatype ProgressRecord = ProgressRecord(completed: Option<seq<string>>, last: Option<string>)

  /** Progress records by course key; a missing key means "not started". */
  type UserProgress = map<string, ProgressRecord>

  /** The whole persisted user state: the unit of loading, merging and saving. */
  datatype UserState = UserState(name: string, purchased: seq<string>, progress: UserProgress, loggedIn: bool)

  /** The completed list of a record, an absent list read as empty. */
  function CompletedOrEmpty(r: ProgressRecord): (cs: seq<string>)
    ensures r.completed.Some? ==> cs == r.completed.value
    ensures r.completed.None? ==> cs == []
  {
    match r.completed
    case Some(cs) => cs
    case None => []
  }

  /** The lesson ids of a course, in course order. */
  function LessonIds(lessons: seq<Lesson>): (ids: seq<string>)
    ensures |ids| == |lessons|
    ensures forall i :: 0 <= i < |lessons| ==> ids[i] == lessons[i].id
  {
    seq(|lessons|, i requires 0 <= i < |lessons| => lessons[i].id)
  }

  /** No element occurs twice. */
  predicate NoDuplicates<T(==)>(s: seq<T>) {
    forall i, j :: 0 <= i < j < |s| ==> s[i] != s[j]
  }
}

/** The static course catalog and the demo purchase list. */
module Catalog {
  import opened Types

  const Courses: seq<Course> := [
    Course("ai-overseas", "海外 AI 产品", "ai-overseas", "Idea → Business · 7 天打通从想法到收款", [
      Lesson("prep-1", "预备：产品生意的本质", "12:30"),
      Lesson("base-1", "用 AI 编程做出第一个可用 Demo", "18:10"),
      Lesson("base-2", "接入订阅支付（Stripe/替代方案）", "21:05"),
      Lesson("ship-1", "一键部署&监控：从 0 到线上", "16:44"),
      Lesson("grow-1", "增长：7 天上线→数据驱动迭代", "24:50")
    ]),
    Course("yt-ai", "YouTube AI 视频", "yt-ai", "高密度实战圈子 · 教练 1v1 + 风向标", [
      Lesson("yt-0", "路径：从 0 到 YPP 的最短路径", "13:40"),
      Lesson("yt-1", "选题：爆款结构与机会识别", "22:03"),
      Lesson("yt-2", "合规：版权与申诉要点", "15:28"),
      Lesson("yt-3", "提效：工具链与工作流", "17:10"),
      Lesson("yt-4", "复盘：从失败里找到密码", "19:55")
    ]),
    Course("bilibili-goods", "B 站好物", "bilibili-goods", "视频版「知乎好物」 · 30 天密集训练 + 5 个月陪伴", [
      Lesson("b-0", "开场：为什么是 2025 年", "09:31"),
      Lesson("b-1", "选品：5 段式框架与工具", "20:12"),
      Lesson("b-2", "制作：不露脸也能跑通的 4 种方案", "14:26"),
      Lesson("b-3", "运营：评论区才是真战场", "16:33"),
      Lesson("b-4", "进阶：带货→商单的全链路", "18:47")
    ])
  ]

  /** The two course keys a fresh demo user owns. */
  const DemoPurchased: seq<string> := ["ai-overseas", "bilibili-goods"]

  /** Course keys are unique across the catalog. */
  predicate UniqueKeys(catalog: seq<Course>) {
    forall i, j :: 0 <= i < j < |catalog| ==> catalog[i].key != catalog[j].key
  }

  /** Every course has a lesson, and lesson ids are unique within a course. */
  predicate WellFormedCourse(c: Course) {
    |c.lessons| > 0 && NoDuplicates(LessonIds(c.lessons))
  }

  /** The shipped catalog meets the assumptions the page relies on. */
  lemma CatalogWellFormed()
    ensures |Courses| == 3
    ensures UniqueKeys(Courses)
    ensures forall c :: c in Courses ==> WellFormedCourse(c)
    ensures forall k :: k in DemoPurchased ==> exists c :: c in Courses && c.key == k
  {
    assert Courses[0].key == "ai-overseas" && Courses[2].key == "bilibili-goods";
    forall c | c in Courses ensures WellFormedCourse(c) {
      var ids := LessonIds(c.lessons);
      assert ids == LessonIds(Courses[0].lessons) || ids == LessonIds(Courses[1].lessons) || ids == LessonIds(Courses[2].lessons);
    }
  }
}
