/** The parent's report list of src/pages/parent/ParentReports.tsx: one report per grade of each child,
    titled by subject and grade type, newest first. The parent record and each child's fetched grades are
    parameters; a failed load is None. */
module ParentReports {
  import opened Wrappers
  import opened Calendar
  import opened Entities
  import Sorting
  import Grouping

  /** The name a grade type is stored under. */
  function TypeName(t: GradeType): string {
    match t
    case Assignment => "Assignment"
    case Quiz => "Quiz"
    case Midterm => "Midterm"
    case Final => "Final"
    case Project => "Project"
  }

  /** formatReportType: each of the five stored type names reads as itself, anything else as
      "Assessment". */
  function FormatReportType(stored: string): (shown: string)
    ensures (exists t :: TypeName(t) == stored) ==> shown == stored
    ensures (forall t :: TypeName(t) != stored) ==> shown == "Assessment"
  {
    if stored == "Midterm" then assert TypeName(Midterm) == stored; "Midterm"
    else if stored == "Final" then assert TypeName(Final) == stored; "Final"
    else if stored == "Assignment" then assert TypeName(Assignment) == stored; "Assignment"
    else if stored == "Quiz" then assert TypeName(Quiz) == stored; "Quiz"
    else if stored == "Project" then assert TypeName(Project) == stored; "Project"
    else
      assert forall t :: TypeName(t) != stored;
      "Assessment"
  }

  /** buildReportTitle: the subject, a bullet, and the type label. */
  function ReportTitle(g: Grade): (title: string)
    ensures title == g.subject + " • " + TypeName(g.gradeType)
  {
    g.subject + " • " + FormatReportType(TypeName(g.gradeType))
  }

  datatype ReportStatus = Available | Archived

  datatype ReportItem = ReportItem(
    id: string,
    child: Student,
    title: string,
    date: Moment,
    reportType: string,
    subject: string,
    teacherId: string,
    status: ReportStatus,
    grade: Grade)

  /** The report of one grade of one child. */
  function ReportOf(child: Student, g: Grade): (r: ReportItem)
    ensures r.id == child.id + "-" + g.id && r.status == Available
    ensures r.child == child && r.grade == g && r.date == g.date
    ensures r.title == ReportTitle(g) && r.reportType == FormatReportType(TypeName(g.gradeType))
    ensures r.subject == g.subject && r.teacherId == g.teacherId
  {
    ReportItem(child.id + "-" + g.id, child, ReportTitle(g), g.date, FormatReportType(TypeName(g.gradeType)),
               g.subject, g.teacherId, Available, g)
  }

  function ChildReports(child: Student, grades: seq<Grade>): (rs: seq<ReportItem>)
    ensures |rs| == |grades|
    ensures forall j :: 0 <= j < |grades| ==> rs[j] == ReportOf(child, grades[j])
  {
    seq(|grades|, j requires 0 <= j < |grades| => ReportOf(child, grades[j]))
  }

  /** The number of grades of all the children. */
  function GradeTotal(children: seq<(Student, seq<Grade>)>): nat {
    if children == [] then 0 else |children[0].1| + GradeTotal(children[1..])
  }

  /** `reportItems.flat()`: the children's report lists one after the other. */
  function Flatten(children: seq<(Student, seq<Grade>)>): (rs: seq<ReportItem>)
    ensures |rs| == GradeTotal(children)
  {
    if children == [] then [] else ChildReports(children[0].0, children[0].1) + Flatten(children[1..])
  }

  /** A report is in the flat list exactly when it is the report of some child's grade. */
  lemma {:induction false} FlattenMembers(children: seq<(Student, seq<Grade>)>, item: ReportItem)
    ensures item in Flatten(children) <==>
      exists k, j :: 0 <= k < |children| && 0 <= j < |children[k].1| && item == ReportOf(children[k].0, children[k].1[j])
  {
    if children != [] {
      FlattenMembers(children[1..], item);
      var first := ChildReports(children[0].0, children[0].1);
      if item in first {
        var j :| 0 <= j < |first| && first[j] == item;
        assert item == ReportOf(children[0].0, children[0].1[j]);
      }
      if exists k, j :: 0 <= k < |children| && 0 <= j < |children[k].1| && item == ReportOf(children[k].0, children[k].1[j]) {
        var k, j :| 0 <= k < |children| && 0 <= j < |children[k].1| && item == ReportOf(children[k].0, children[k].1[j]);
        if k == 0 {
          assert first[j] == item;
        } else {
          assert children[1..][k - 1] == children[k];
        }
      }
    }
  }

  /** `b.date.getTime() - a.date.getTime()`: newest first. */
  function NewestFirst(a: ReportItem, b: ReportItem): bool {
    !Before(a.date, b.date)
  }

  lemma NewestFirstIsTotalPreorder()
    ensures Sorting.TotalPreorder(NewestFirst)
  {
    forall a, b ensures NewestFirst(a, b) || NewestFirst(b, a) {
      BeforeIsStrictOrder(a.date, b.date, a.date);
    }
    forall a, b, c | NewestFirst(a, b) && NewestFirst(b, c) ensures NewestFirst(a, c) {
      BeforeIsStrictOrder(a.date, b.date, c.date);
    }
  }

  /** loadReports: nothing without a parent record or when loading fails, otherwise every child's
      reports, newest first. */
  function LoadReports(parent: Option<Parent>, children: Option<seq<(Student, seq<Grade>)>>): (rs: seq<ReportItem>)
    ensures parent.None? || children.None? ==> rs == []
    ensures parent.Some? && children.Some? ==> multiset(rs) == multiset(Flatten(children.value))
  {
    if parent.None? || children.None? then [] else Sorting.SortBy(Flatten(children.value), NewestFirst)
  }

  /** The loaded list: one report per grade of each child, so as many as there are grades, each
      available and named after the child and the grade, newest first. */
  lemma LoadedReports(parent: Parent, children: seq<(Student, seq<Grade>)>)
    ensures var rs := LoadReports(Some(parent), Some(children));
      |rs| == GradeTotal(children)
      && Sorting.SortedBy(rs, NewestFirst)
      && forall item :: item in rs <==>
           exists k, j :: 0 <= k < |children| && 0 <= j < |children[k].1| && item == ReportOf(children[k].0, children[k].1[j])
  {
    var flat := Flatten(children);
    var rs := Sorting.SortBy(flat, NewestFirst);
    NewestFirstIsTotalPreorder();
    Sorting.SortBySorted(flat, NewestFirst);
    Grouping.SameMembers(rs, flat);
    forall item ensures item in rs <==>
      exists k, j :: 0 <= k < |children| && 0 <= j < |children[k].1| && item == ReportOf(children[k].0, children[k].1[j])
    {
      FlattenMembers(children, item);
    }
  }
}
