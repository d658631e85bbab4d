/** The student's grades page of src/pages/student/StudentGrades.tsx: the badge colour of an average,
    the trend between the two latest grades, one summary card per subject and teacher, and the overall
    average. The fetch of the student record and of the grades is a parameter; a failed fetch is None. */
module StudentGrades {
  import opened Wrappers
  import opened Calendar
  import opened Entities
  import Sorting
  import Grouping
  import GradeRules

  datatype BadgeVariant = DefaultBadge | SecondaryBadge | OutlineBadge | DestructiveBadge

  function StandingBadge(s: GradeRules.Standing): BadgeVariant {
    match s
    case Excellent => DefaultBadge
    case Good => SecondaryBadge
    case AverageStanding => OutlineBadge
    case NeedsImprovement => DestructiveBadge
  }

  /** getGradeColor: outline without an average, otherwise the badge of the average's 90/80/70 standing. */
  function GradeColor(grade: Option<real>): (v: BadgeVariant)
    ensures grade.None? ==> v == OutlineBadge
    ensures grade.Some? ==> v == StandingBadge(GradeRules.StandingOf(grade.value))
  {
    if grade.None? then OutlineBadge
    else if grade.value >= 90.0 then DefaultBadge
    else if grade.value >= 80.0 then SecondaryBadge
    else if grade.value >= 70.0 then OutlineBadge
    else DestructiveBadge
  }

  // ----- loading -----

  /** `a.date.getTime() - b.date.getTime()`: oldest first. */
  function NoLater(a: Grade, b: Grade): bool {
    !Before(b.date, a.date)
  }

  /** `b.date.getTime() - a.date.getTime()`: newest first. */
  function NoEarlier(a: Grade, b: Grade): bool {
    !Before(a.date, b.date)
  }

  lemma NoLaterIsTotalPreorder()
    ensures Sorting.TotalPreorder(NoLater)
  {
    forall a, b ensures NoLater(a, b) || NoLater(b, a) {
      BeforeIsStrictOrder(a.date, b.date, a.date);
    }
    forall a, b, c | NoLater(a, b) && NoLater(b, c) ensures NoLater(a, c) {
      BeforeIsStrictOrder(c.date, a.date, b.date);
      BeforeIsStrictOrder(b.date, c.date, a.date);
    }
  }

  lemma NoEarlierIsTotalPreorder()
    ensures Sorting.TotalPreorder(NoEarlier)
  {
    forall a, b ensures NoEarlier(a, b) || NoEarlier(b, a) {
      BeforeIsStrictOrder(a.date, b.date, a.date);
    }
    forall a, b, c | NoEarlier(a, b) && NoEarlier(b, c) ensures NoEarlier(a, c) {
      BeforeIsStrictOrder(a.date, b.date, c.date);
    }
  }

  /** loadGrades: nothing without a student record or when loading fails, otherwise all the student's
      grades, newest first. */
  function LoadGrades(student: Option<Student>, fetched: Option<seq<Grade>>): (r: seq<Grade>)
    ensures student.None? || fetched.None? ==> r == []
    ensures student.Some? && fetched.Some? ==> multiset(r) == multiset(fetched.value)
  {
    if student.None? || fetched.None? then [] else Sorting.SortBy(fetched.value, NoEarlier)
  }

  lemma LoadedNewestFirst(student: Option<Student>, fetched: Option<seq<Grade>>)
    ensures Sorting.SortedBy(LoadGrades(student, fetched), NoEarlier)
  {
    if student.Some? && fetched.Some? {
      NoEarlierIsTotalPreorder();
      Sorting.SortBySorted(fetched.value, NoEarlier);
    }
  }

  // ----- trend -----

  /** The last two grades of the list sorted oldest first: the most recent, then the one before it. */
  function LatestTwo(grades: seq<Grade>): (Grade, Grade)
    requires |grades| >= 2
  {
    LastTwo(Sorting.SortBy(grades, NoLater))
  }

  function LastTwo(s: seq<Grade>): (Grade, Grade)
    requires |s| >= 2
  {
    (s[|s| - 1], s[|s| - 2])
  }

  /** `recent` and `previous` are two of the grades; no grade is later than `recent`, and no other grade
      is later than `previous`. */
  predicate LatestPair(grades: seq<Grade>, recent: Grade, previous: Grade) {
    multiset{recent, previous} <= multiset(grades)
    && (forall g :: g in grades ==> NoLater(g, recent))
    && NoLater(previous, recent)
    && forall g :: g in multiset(grades) - multiset{recent, previous} ==> NoLater(g, previous)
  }

  /** The trend compares the latest grade with the one before it. */
  lemma LatestTwoAreLatest(grades: seq<Grade>)
    requires |grades| >= 2
    ensures LatestPair(grades, LatestTwo(grades).0, LatestTwo(grades).1)
  {
    SortedOldestFirst(grades);
    SortedLastTwo(Sorting.SortBy(grades, NoLater), grades);
  }

  lemma SortedOldestFirst(grades: seq<Grade>)
    ensures Sorting.SortedBy(Sorting.SortBy(grades, NoLater), NoLater)
  {
    NoLaterIsTotalPreorder();
    Sorting.SortBySorted(grades, NoLater);
  }

  /** In a list sorted oldest first, the last grade is no earlier than any, and the one before it no
      earlier than any other. */
  lemma SortedLastTwo(s: seq<Grade>, grades: seq<Grade>)
    requires |s| >= 2 && Sorting.SortedBy(s, NoLater) && multiset(s) == multiset(grades)
    ensures LatestPair(grades, LastTwo(s).0, LastTwo(s).1)
  {
    var n := |s|;
    var rest := s[..n - 2];
    var recent, previous := s[n - 1], s[n - 2];
    assert s == rest + [previous] + [recent];
    assert multiset(grades) == multiset(rest) + multiset{previous} + multiset{recent};
    forall g | g in grades ensures NoLater(g, recent) {
      assert g in multiset(s);
      var k :| 0 <= k < n && s[k] == g;
      if k == n - 1 {
        BeforeIsStrictOrder(g.date, g.date, g.date);
      }
    }
    forall g | g in multiset(grades) - multiset{recent, previous} ensures NoLater(g, previous) {
      assert g in multiset(rest);
      var k :| 0 <= k < |rest| && rest[k] == g;
      assert s[k] == g;
    }
  }

  datatype Trend = Up | Down

  /** calculateTrend: nothing for fewer than two grades or when either of the two latest has no
      percentage; otherwise up when the latest is at least the one before it. */
  function CalculateTrend(grades: seq<Grade>): (r: Option<Trend>)
    ensures |grades| < 2 ==> r.None?
    ensures |grades| >= 2 ==>
      (r.None? <==> GradeRules.PercentageOf(LatestTwo(grades).0).None? || GradeRules.PercentageOf(LatestTwo(grades).1).None?)
    ensures r == Some(Up) ==>
      GradeRules.PercentageOf(LatestTwo(grades).0).value >= GradeRules.PercentageOf(LatestTwo(grades).1).value
    ensures r == Some(Down) ==>
      GradeRules.PercentageOf(LatestTwo(grades).0).value < GradeRules.PercentageOf(LatestTwo(grades).1).value
  {
    if |grades| < 2 then None
    else
      var (recent, previous) := LatestTwo(grades);
      var recentPerc := GradeRules.PercentageOf(recent);
      var previousPerc := GradeRules.PercentageOf(previous);
      if recentPerc.None? || previousPerc.None? then None
      else if recentPerc.value >= previousPerc.value then Some(Up)
      else Some(Down)
  }

  // ----- summaries -----

  /** The summary key as the page writes it: the subject, an underscore, the teacher id. */
  function SubjectKey(g: Grade): string {
    g.subject + "_" + g.teacherId
  }

  /** The cards as the page builds them: one per distinct written key, named after the first grade filed
      under it. */
  function SummariesAsWritten(grades: seq<Grade>): (r: seq<GradeSummary>)
    ensures |r| == |Grouping.KeysInOrder(grades, SubjectKey)|
  {
    var keys := Grouping.KeysInOrder(grades, SubjectKey);
    seq(|keys|, i requires 0 <= i < |keys| =>
      KeyHasGrade(grades, keys[i]);
      var group := Grouping.Select(grades, SubjectKey, keys[i]);
      Summarize(CourseOf(group[0]), group))
  }

  lemma KeyHasGrade(grades: seq<Grade>, k: string)
    requires k in Grouping.KeysInOrder(grades, SubjectKey)
    ensures Grouping.Select(grades, SubjectKey, k) != []
  {
    var i :| 0 <= i < |grades| && SubjectKey(grades[i]) == k;
    assert grades[i] in Grouping.Select(grades, SubjectKey, k);
  }

  /** A grade for "Math_Advanced" by teacher "T" and one for "Math" by teacher "Advanced_T" get the same
      written key, so the page shows them on one card named after the first, while they belong to two
      subjects and teachers and the keyed-by-pair cards keep them apart. */
  lemma SubjectKeyMergesCourses(g: Grade)
    ensures var a := g.(subject := "Math_Advanced", teacherId := "T");
      var b := g.(subject := "Math", teacherId := "Advanced_T");
      var written := SummariesAsWritten([a, b]);
      |written| == 1 && written[0].grades == [a, b] && CourseOf(b) != Course(written[0].subject, written[0].teacherId)
      && |Summaries([a, b])| == 2
  {
    var a := g.(subject := "Math_Advanced", teacherId := "T");
    var b := g.(subject := "Math", teacherId := "Advanced_T");
    assert SubjectKey(a) == "Math_Advanced_T" == SubjectKey(b);
    assert CourseOf(a) != CourseOf(b) by {
      assert |CourseOf(a).subject| != |CourseOf(b).subject|;
    }
    WrittenKeysMerge(a, b);
    PairKeysSeparate(a, b);
  }

  lemma WrittenKeysMerge(a: Grade, b: Grade)
    requires SubjectKey(a) == SubjectKey(b)
    ensures SummariesAsWritten([a, b]) == [Summarize(CourseOf(a), [a, b])]
  {
    assert [a, b][..1] == [a];
    assert Grouping.KeysInOrder([a], SubjectKey) == [SubjectKey(a)];
    assert Grouping.Select([a], SubjectKey, SubjectKey(a)) == [a];
    assert Grouping.KeysInOrder([a, b], SubjectKey) == [SubjectKey(a)];
    assert Grouping.Select([a, b], SubjectKey, SubjectKey(a)) == [a, b];
  }

  lemma PairKeysSeparate(a: Grade, b: Grade)
    requires CourseOf(a) != CourseOf(b)
    ensures Grouping.KeysInOrder([a, b], CourseOf) == [CourseOf(a), CourseOf(b)]
  {
    assert [a, b][..1] == [a];
    assert Grouping.KeysInOrder([a], CourseOf) == [CourseOf(a)];
  }

  /** The subject and teacher a card stands for. */
  datatype Course = Course(subject: string, teacherId: string)

  function CourseOf(g: Grade): Course {
    Course(g.subject, g.teacherId)
  }

  datatype GradeSummary = GradeSummary(
    subject: string,
    teacherId: string,
    grades: seq<Grade>,
    average: Option<real>,
    trend: Option<Trend>)

  function Summarize(c: Course, grades: seq<Grade>): GradeSummary {
    GradeSummary(c.subject, c.teacherId, grades, GradeRules.AveragePercentage(grades), CalculateTrend(grades))
  }

  /** summaries: one card per subject and teacher, in the order they first appear, each with its
      grades in list order, their average and their trend. */
  function Summaries(grades: seq<Grade>): (r: seq<GradeSummary>)
    ensures |r| == |Grouping.KeysInOrder(grades, CourseOf)|
  {
    var courses := Grouping.KeysInOrder(grades, CourseOf);
    seq(|courses|, i requires 0 <= i < |courses| => Summarize(courses[i], Grouping.Select(grades, CourseOf, courses[i])))
  }

  function GradeCount(ss: seq<GradeSummary>): nat {
    if ss == [] then 0 else |ss[0].grades| + GradeCount(ss[1..])
  }

  function CoursesOf(ss: seq<GradeSummary>): (cs: seq<Course>)
    ensures |cs| == |ss|
    ensures forall i :: 0 <= i < |ss| ==> cs[i] == Course(ss[i].subject, ss[i].teacherId)
  {
    seq(|ss|, i requires 0 <= i < |ss| => Course(ss[i].subject, ss[i].teacherId))
  }

  lemma {:induction false} GradeCountIsTotalSize(ss: seq<GradeSummary>, grades: seq<Grade>)
    requires forall s :: s in ss ==> s.grades == Grouping.Select(grades, CourseOf, Course(s.subject, s.teacherId))
    ensures GradeCount(ss) == Grouping.TotalSize(grades, CourseOf, CoursesOf(ss))
  {
    if ss != [] {
      GradeCountIsTotalSize(ss[1..], grades);
      assert CoursesOf(ss)[1..] == CoursesOf(ss[1..]);
    }
  }

  /** Every card holds exactly the grades of its own subject and teacher, and at least one. */
  ghost predicate CardsMatch(grades: seq<Grade>, ss: seq<GradeSummary>) {
    forall i :: 0 <= i < |ss| ==>
      (ss[i].grades != []
       && forall g :: g in ss[i].grades <==> g in grades && CourseOf(g) == Course(ss[i].subject, ss[i].teacherId))
  }

  /** The cards partition the grades: every grade is on the card of its own subject and teacher, no two
      cards share a subject and teacher, and together they hold every grade once. */
  lemma SummariesPartition(grades: seq<Grade>)
    ensures var ss := Summaries(grades);
      CardsMatch(grades, ss)
      && (forall g :: g in grades ==> CourseOf(g) in CoursesOf(ss))
      && Grouping.Distinct(CoursesOf(ss))
      && GradeCount(ss) == |grades|
  {
    var ss := Summaries(grades);
    var courses := Grouping.KeysInOrder(grades, CourseOf);
    assert CoursesOf(ss) == courses;
    SummariesMatch(grades);
    forall g | g in grades ensures CourseOf(g) in courses {
      var k :| 0 <= k < |grades| && grades[k] == g;
    }
    SummariesCount(grades);
  }

  lemma SummariesMatch(grades: seq<Grade>)
    ensures CardsMatch(grades, Summaries(grades))
  {
    var ss := Summaries(grades);
    var courses := Grouping.KeysInOrder(grades, CourseOf);
    forall i | 0 <= i < |ss| ensures ss[i].grades != [] {
      assert courses[i] in courses;
      var k :| 0 <= k < |grades| && CourseOf(grades[k]) == courses[i];
      assert grades[k] in ss[i].grades;
    }
  }

  lemma SummariesCount(grades: seq<Grade>)
    ensures GradeCount(Summaries(grades)) == |grades|
  {
    var ss := Summaries(grades);
    var courses := Grouping.KeysInOrder(grades, CourseOf);
    assert CoursesOf(ss) == courses;
    forall s | s in ss ensures s.grades == Grouping.Select(grades, CourseOf, Course(s.subject, s.teacherId)) {
      var i :| 0 <= i < |ss| && ss[i] == s;
    }
    GradeCountIsTotalSize(ss, grades);
    forall i | 0 <= i < |grades| ensures CourseOf(grades[i]) in courses {
      assert grades[i] in grades;
    }
    Grouping.GroupSizesSum(grades, CourseOf, courses);
  }

  /** overallAverage: the mean of every percentage that can be worked out, none without any. */
  function OverallAverage(grades: seq<Grade>): (avg: Option<real>)
    ensures avg.None? <==> forall g :: g in grades ==> GradeRules.PercentageOf(g).None?
  {
    GradeRules.AveragePercentage(grades)
  }

  /** The overall average is missing exactly when every card's average is. */
  lemma OverallMissingIffCardsMissing(grades: seq<Grade>)
    ensures OverallAverage(grades).None? <==> forall s :: s in Summaries(grades) ==> s.average.None?
  {
    var ss := Summaries(grades);
    var courses := Grouping.KeysInOrder(grades, CourseOf);
    if OverallAverage(grades).Some? {
      var g :| g in grades && GradeRules.PercentageOf(g).Some?;
      var k :| 0 <= k < |grades| && grades[k] == g;
      assert CourseOf(grades[k]) in courses;
      var i :| 0 <= i < |courses| && courses[i] == CourseOf(g);
      assert g in ss[i].grades;
      assert ss[i] in ss;
    } else {
      forall s | s in ss ensures s.average.None? {
        var i :| 0 <= i < |ss| && ss[i] == s;
        assert forall g :: g in s.grades ==> g in grades;
      }
    }
  }
}
