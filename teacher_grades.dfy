/** The teacher's grade book of src/pages/teacher/TeacherGrades.tsx: per enrolled student, the first
    Midterm and the first Final grade, their average and standing, the two score boxes, and the save
    of one box as a grade out of 100. The store's reads and writes are parameters and results. */
module TeacherGrades {
  import opened Wrappers
  import opened Calendar
  import opened Entities
  import Grouping
  import GradeRules
  import Forms

  /** The position of the first grade of a type, as `find((g) => g.type === t)` meets it. */
  function FirstIndexOf(grades: seq<Grade>, t: GradeType): (r: Option<nat>)
    ensures r.None? <==> forall i :: 0 <= i < |grades| ==> grades[i].gradeType != t
    ensures r.Some? ==> (r.value < |grades| && grades[r.value].gradeType == t
                         && forall j :: 0 <= j < r.value ==> grades[j].gradeType != t)
  {
    if grades == [] then None
    else if grades[0].gradeType == t then Some(0)
    else
      match FirstIndexOf(grades[1..], t)
      case None => None
      case Some(k) => Some(k + 1)
  }

  function FirstOfType(grades: seq<Grade>, t: GradeType): (r: Option<Grade>)
    ensures r.None? <==> forall i :: 0 <= i < |grades| ==> grades[i].gradeType != t
    ensures r.Some? ==> r.value in grades && r.value.gradeType == t
  {
    match FirstIndexOf(grades, t)
    case None => None
    case Some(i) => Some(grades[i])
  }

  /** `grade?.percentage || 0`. */
  function PercentOrZero(g: Option<Grade>): real {
    if g.Some? && g.value.percentage.Some? then g.value.percentage.value else 0.0
  }

  function Present(g: Option<Grade>): nat {
    if g.Some? then 1 else 0
  }

  /** The exam average: 0 without exams, otherwise the sum over `Math.max(gradeCount, 2)`. At most two
      exams count, so the divisor is always two and a lone exam counts half. */
  function ExamAverage(midterm: Option<Grade>, final: Option<Grade>): (avg: real)
    ensures avg == (PercentOrZero(midterm) + PercentOrZero(final)) / 2.0
    ensures midterm.Some? && final.None? ==> avg == PercentOrZero(midterm) / 2.0
    ensures 0.0 <= PercentOrZero(midterm) <= 100.0 && 0.0 <= PercentOrZero(final) <= 100.0 ==> 0.0 <= avg <= 100.0
  {
    var count := Present(midterm) + Present(final);
    if count > 0 then
      (PercentOrZero(midterm) + PercentOrZero(final)) / (if count > 2 then count else 2) as real
    else 0.0
  }

  datatype GradeRow = GradeRow(
    studentId: string,
    studentName: string,
    midterm: Option<Grade>,
    final: Option<Grade>,
    average: real,
    status: GradeRules.Standing)

  /** `grades.filter((g) => g.studentId === student.id)`. */
  function ForStudent(grades: seq<Grade>, id: string): (r: seq<Grade>)
    ensures forall g :: g in r <==> g in grades && g.studentId == id
  {
    if grades == [] then []
    else
      var init := grades[..|grades| - 1];
      var last := grades[|grades| - 1];
      assert grades == init + [last];
      ForStudent(init, id) + (if last.studentId == id then [last] else [])
  }

  /** A student's row: the student's first Midterm and first Final, their average and its standing. */
  function RowOf(s: Student, grades: seq<Grade>): GradeRow {
    var mine := ForStudent(grades, s.id);
    var midterm := FirstOfType(mine, Midterm);
    var final := FirstOfType(mine, Final);
    var average := ExamAverage(midterm, final);
    GradeRow(s.id, s.name, midterm, final, average, GradeRules.StandingOf(average))
  }

  /** The row shows the student's own exams of each kind, when there are any, and the standing of the
      average; without exams the average is 0 and the standing Needs Improvement. */
  lemma RowOfShape(s: Student, grades: seq<Grade>)
    ensures var row := RowOf(s, grades);
      row.studentId == s.id && row.studentName == s.name
      && (row.midterm.Some? ==>
            row.midterm.value in grades && row.midterm.value.studentId == s.id && row.midterm.value.gradeType == Midterm)
      && (row.final.Some? ==>
            row.final.value in grades && row.final.value.studentId == s.id && row.final.value.gradeType == Final)
      && (row.midterm.None? <==> forall g :: g in grades && g.studentId == s.id ==> g.gradeType != Midterm)
      && (row.final.None? <==> forall g :: g in grades && g.studentId == s.id ==> g.gradeType != Final)
      && row.status == GradeRules.StandingOf(row.average)
      && (row.midterm.None? && row.final.None? ==> row.average == 0.0 && row.status == GradeRules.NeedsImprovement)
  {
    var mine := ForStudent(grades, s.id);
    NoneOfType(mine, grades, s.id, Midterm);
    NoneOfType(mine, grades, s.id, Final);
  }

  lemma NoneOfType(mine: seq<Grade>, grades: seq<Grade>, id: string, t: GradeType)
    requires mine == ForStudent(grades, id)
    ensures FirstOfType(mine, t).None? <==> forall g :: g in grades && g.studentId == id ==> g.gradeType != t
  {
    if FirstOfType(mine, t).None? {
      forall g | g in grades && g.studentId == id ensures g.gradeType != t {
        assert g in mine;
        var i :| 0 <= i < |mine| && mine[i] == g;
      }
    }
  }

  // ----- the score boxes -----

  /** The two boxes of a row; each box's value is `parseFloat` of its text. */
  datatype ScoreInputs = ScoreInputs(midterm: Forms.NumberField, final: Forms.NumberField)

  /** An empty box: `parseFloat("")` is NaN. */
  const Blank := Forms.NumberField("", None)

  /** `grade?.score?.toString() || ""`; the number's text is `scoreText`, which reads back as the score. */
  function BoxFor(g: Option<Grade>, scoreText: real -> string): (box: Forms.NumberField)
    ensures g.None? ==> box == Blank
    ensures g.Some? ==> box.value == Some(g.value.score)
  {
    if g.Some? then Forms.NumberField(scoreText(g.value.score), Some(g.value.score)) else Blank
  }

  function InputsOf(row: GradeRow, scoreText: real -> string): ScoreInputs {
    ScoreInputs(BoxFor(row.midterm, scoreText), BoxFor(row.final, scoreText))
  }

  /** No later student in the list has the same id, so this one's entry is the one a map keeps. */
  predicate LastWithId(students: seq<Student>, i: nat)
    requires i < |students|
  {
    forall j :: i < j < |students| ==> students[j].id != students[i].id
  }

  function Ids(students: seq<Student>): set<string> {
    set s | s in students :: s.id
  }

  /** The rows `gradesMap.set(student.id, ...)` leaves, student by student. */
  function RowsMap(enrolled: seq<Student>, grades: seq<Grade>): map<string, GradeRow> {
    if enrolled == [] then map[]
    else
      var s := enrolled[|enrolled| - 1];
      RowsMap(enrolled[..|enrolled| - 1], grades)[s.id := RowOf(s, grades)]
  }

  /** Every enrolled student has a row, nobody else has one, and a student's row is computed from the
      class's grades. */
  lemma {:induction false} RowsMapShape(enrolled: seq<Student>, grades: seq<Grade>)
    ensures RowsMap(enrolled, grades).Keys == Ids(enrolled)
    ensures forall i :: 0 <= i < |enrolled| && LastWithId(enrolled, i) ==>
      RowsMap(enrolled, grades)[enrolled[i].id] == RowOf(enrolled[i], grades)
  {
    if enrolled != [] {
      var init := enrolled[..|enrolled| - 1];
      var s := enrolled[|enrolled| - 1];
      assert enrolled == init + [s];
      RowsMapShape(init, grades);
      forall i | 0 <= i < |enrolled| - 1 && LastWithId(enrolled, i) ensures LastWithId(init, i) {
      }
    }
  }

  /** loadStudentsAndGrades's forEach: a row and a pair of boxes per enrolled student, keyed by id. */
  method OrganizeGrades(enrolled: seq<Student>, grades: seq<Grade>, scoreText: real -> string)
    returns (rows: map<string, GradeRow>, inputs: map<string, ScoreInputs>)
    ensures rows == RowsMap(enrolled, grades)
    ensures BoxesMatch(inputs, rows, scoreText)
  {
    rows := map[];
    inputs := map[];
    for k := 0 to |enrolled|
      invariant rows == RowsMap(enrolled[..k], grades)
      invariant BoxesMatch(inputs, rows, scoreText)
    {
      var s := enrolled[k];
      var row := RowOf(s, grades);
      RowsMapStep(enrolled, k, grades);
      rows := rows[s.id := row];
      inputs := inputs[s.id := InputsOf(row, scoreText)];
    }
    assert enrolled[..|enrolled|] == enrolled;
  }

  /** Every row has its pair of boxes, and only rows have them. */
  predicate BoxesMatch(inputs: map<string, ScoreInputs>, rows: map<string, GradeRow>, scoreText: real -> string) {
    inputs.Keys == rows.Keys && forall id :: id in rows ==> inputs[id] == InputsOf(rows[id], scoreText)
  }

  lemma RowsMapStep(enrolled: seq<Student>, k: nat, grades: seq<Grade>)
    requires k < |enrolled|
    ensures RowsMap(enrolled[..k + 1], grades) == RowsMap(enrolled[..k], grades)[enrolled[k].id := RowOf(enrolled[k], grades)]
  {
    assert enrolled[..k + 1][..k] == enrolled[..k];
  }

  /** `allStudents.filter((s) => enrolledStudentIds.includes(s.id))`: only students enrolled in the
      class appear, in the order of the student list. */
  function EnrolledStudents(enrollments: seq<Enrollment>, all: seq<Student>): (r: seq<Student>)
    ensures forall s :: s in r <==> s in all && exists e :: e in enrollments && e.studentId == s.id
  {
    Grouping.Filter(all, (s: Student) => exists e :: e in enrollments && e.studentId == s.id)
  }

  // ----- typing into a box -----

  datatype Exam = MidtermExam | FinalExam

  function BoxOf(inputs: ScoreInputs, exam: Exam): Forms.NumberField {
    if exam == MidtermExam then inputs.midterm else inputs.final
  }

  function Other(exam: Exam): Exam {
    if exam == MidtermExam then FinalExam else MidtermExam
  }

  /** handleGradeChange: the given student's given box takes the new text; everything else stays. */
  function ChangeGrade(inputs: map<string, ScoreInputs>, studentId: string, exam: Exam, box: Forms.NumberField)
    : (r: map<string, ScoreInputs>)
    ensures r.Keys == inputs.Keys + {studentId}
    ensures forall id :: id in inputs && id != studentId ==> r[id] == inputs[id]
    ensures BoxOf(r[studentId], exam) == box
    ensures BoxOf(r[studentId], Other(exam)) == if studentId in inputs then BoxOf(inputs[studentId], Other(exam)) else Blank
  {
    var current := if studentId in inputs then inputs[studentId] else ScoreInputs(Blank, Blank);
    inputs[studentId := if exam == MidtermExam then current.(midterm := box) else current.(final := box)]
  }

  // ----- saving a box -----

  function KindOf(exam: Exam): GradeType {
    if exam == MidtermExam then Midterm else Final
  }

  /** The fields a save writes: the score, out of 100, as the percentage, dated now. */
  datatype ScoreChange = ScoreChange(score: real, maxScore: real, percentage: real, date: Moment)

  datatype GradeWrite =
    | UpdateGrade(gradeId: string, change: ScoreChange)
    | AddGrade(studentId: string, classId: string, subject: string, teacherId: string, gradeType: GradeType, change: ScoreChange)

  datatype SaveOutcome = Ignored | InvalidGrade | Write(write: GradeWrite)

  /** The grade the row already shows for the exam, if the row exists. */
  function ExistingGrade(rows: map<string, GradeRow>, studentId: string, exam: Exam): Option<Grade> {
    if studentId !in rows then None
    else if exam == MidtermExam then rows[studentId].midterm
    else rows[studentId].final
  }

  predicate SaveReady(selectedClassId: string, userId: Option<string>, students: seq<Student>,
                      classes: seq<ClassRecord>, inputs: map<string, ScoreInputs>, studentId: string) {
    selectedClassId != "" && userId.Some? && FindStudent(students, studentId).Some?
    && FindClass(classes, selectedClassId).Some? && studentId in inputs
  }

  /** handleSaveGrade: nothing happens without a class, a user, the student, the class record or the
      student's boxes; a box that does not read as a number, or reads as a negative one, is refused;
      otherwise the score is written out of 100, updating the grade the row shows or adding one. */
  function SaveGrade(selectedClassId: string, userId: Option<string>, students: seq<Student>, classes: seq<ClassRecord>,
                     inputs: map<string, ScoreInputs>, rows: map<string, GradeRow>, studentId: string, exam: Exam,
                     now: Moment): (r: SaveOutcome)
    ensures r == Ignored <==> !SaveReady(selectedClassId, userId, students, classes, inputs, studentId)
    ensures r == InvalidGrade <==>
      (SaveReady(selectedClassId, userId, students, classes, inputs, studentId)
       && (BoxOf(inputs[studentId], exam).value.None? || BoxOf(inputs[studentId], exam).value.value < 0.0))
    ensures r.Write? ==>
      (Some(r.write.change.score) == BoxOf(inputs[studentId], exam).value && r.write.change.score >= 0.0
       && r.write.change.maxScore == 100.0 && r.write.change.percentage == r.write.change.score && r.write.change.date == now)
    ensures r.Write? ==> (r.write.UpdateGrade? <==> ExistingGrade(rows, studentId, exam).Some?)
    ensures r.Write? && r.write.UpdateGrade? ==> r.write.gradeId == ExistingGrade(rows, studentId, exam).value.id
    ensures r.Write? && r.write.AddGrade? ==>
      r.write.studentId == studentId && r.write.classId == selectedClassId && r.write.gradeType == KindOf(exam)
      && r.write.teacherId == userId.value && r.write.subject == FindClass(classes, selectedClassId).value.name
  {
    if !SaveReady(selectedClassId, userId, students, classes, inputs, studentId) then Ignored
    else
      var box := BoxOf(inputs[studentId], exam);
      if box.value.None? || box.value.value < 0.0 then InvalidGrade
      else
        var score := box.value.value;
        var maxScore := 100.0;
        var change := ScoreChange(score, maxScore, score / maxScore * 100.0, now);
        match ExistingGrade(rows, studentId, exam)
        case Some(g) => Write(UpdateGrade(g.id, change))
        case None =>
          var student := FindStudent(students, studentId).value;
          var cls := FindClass(classes, selectedClassId).value;
          Write(AddGrade(student.id, cls.id, cls.name, userId.value, KindOf(exam), change))
  }

  /** The class's grades after a write: an update changes the grade with that id in place, an addition
      appends a grade under the id the store gives it. The page reloads the list newest first, so the new
      grade really comes first; nothing here depends on its place, because an addition happens only when
      the student has no grade of that type and a row looks grades up by student and type. */
  function ApplyWrite(grades: seq<Grade>, w: GradeWrite, newId: string): (r: seq<Grade>)
    ensures w.AddGrade? ==> |r| == |grades| + 1 && r[..|grades|] == grades
    ensures w.AddGrade? ==>
      var g := r[|grades|];
      g.id == newId && g.studentId == w.studentId && g.classId == w.classId && g.subject == w.subject
      && g.teacherId == w.teacherId && g.gradeType == w.gradeType && g.score == w.change.score
      && g.maxScore == w.change.maxScore && g.percentage == Some(w.change.percentage) && g.date == w.change.date
    ensures w.UpdateGrade? ==> |r| == |grades|
    ensures w.UpdateGrade? ==> forall i :: 0 <= i < |r| && grades[i].id != w.gradeId ==> r[i] == grades[i]
    ensures w.UpdateGrade? ==> forall i :: 0 <= i < |r| && grades[i].id == w.gradeId ==>
      ScoreWritten(grades[i], r[i], w.change)
  {
    match w
    case UpdateGrade(id, change) => Updated(grades, id, change)
    case AddGrade(studentId, classId, subject, teacherId, gradeType, change) =>
      grades + [Grade(newId, studentId, classId, subject, teacherId, change.score, change.maxScore,
                      Some(change.percentage), gradeType, change.date)]
  }

  /** `updateDoc` on one grade: only the written fields change. */
  function Touch(g: Grade, id: string, change: ScoreChange): Grade {
    if g.id == id then
      g.(score := change.score, maxScore := change.maxScore, percentage := Some(change.percentage), date := change.date)
    else g
  }

  /** `after` is `before` with the score, maximum, percentage and date of the change, and every other
      field as it was. */
  predicate ScoreWritten(before: Grade, after: Grade, change: ScoreChange) {
    after.id == before.id && after.studentId == before.studentId && after.classId == before.classId
    && after.subject == before.subject && after.teacherId == before.teacherId && after.gradeType == before.gradeType
    && after.score == change.score && after.maxScore == change.maxScore
    && after.percentage == Some(change.percentage) && after.date == change.date
  }

  function Updated(grades: seq<Grade>, id: string, change: ScoreChange): (r: seq<Grade>)
    ensures |r| == |grades|
    ensures forall i :: 0 <= i < |r| && grades[i].id != id ==> r[i] == grades[i]
    ensures forall i :: 0 <= i < |r| && grades[i].id == id ==> ScoreWritten(grades[i], r[i], change)
  {
    seq(|grades|, i requires 0 <= i < |grades| => Touch(grades[i], id, change))
  }

  /** Updating grades keeps who they belong to and their types, so it commutes with picking a student's. */
  lemma {:induction false} UpdatedForStudent(grades: seq<Grade>, sid: string, id: string, change: ScoreChange)
    ensures ForStudent(Updated(grades, id, change), sid) == Updated(ForStudent(grades, sid), id, change)
  {
    if grades != [] {
      var n := |grades|;
      var init := grades[..n - 1];
      var last := grades[n - 1];
      var u := Updated(grades, id, change);
      assert u[..n - 1] == Updated(init, id, change);
      assert u[n - 1] == Touch(last, id, change);
      UpdatedForStudent(init, sid, id, change);
      var before := ForStudent(init, sid);
      if last.studentId == sid {
        assert Updated(before + [last], id, change) == Updated(before, id, change) + [Touch(last, id, change)];
      }
    }
  }

  /** Lists whose grades have the same types, position by position, have their first of a type at the same place. */
  lemma SameTypesFirstIndex(a: seq<Grade>, b: seq<Grade>, t: GradeType)
    requires |a| == |b| && forall j :: 0 <= j < |a| ==> a[j].gradeType == b[j].gradeType
    ensures FirstIndexOf(a, t) == FirstIndexOf(b, t)
  {
    if FirstIndexOf(a, t).Some? && FirstIndexOf(b, t).Some? {
      var i, k := FirstIndexOf(a, t).value, FirstIndexOf(b, t).value;
      assert !(i < k) && !(k < i);
    }
  }

  /** Updating the grade a student's row shows puts the new percentage in that row. */
  lemma UpdateShows(grades: seq<Grade>, sid: string, t: GradeType, change: ScoreChange)
    requires FirstOfType(ForStudent(grades, sid), t).Some?
    ensures var id := FirstOfType(ForStudent(grades, sid), t).value.id;
      var shown := FirstOfType(ForStudent(Updated(grades, id, change), sid), t);
      shown.Some? && shown.value.percentage == Some(change.percentage)
  {
    var mine := ForStudent(grades, sid);
    var k := FirstIndexOf(mine, t).value;
    var id := mine[k].id;
    UpdatedForStudent(grades, sid, id, change);
    var mine2 := Updated(mine, id, change);
    forall j | 0 <= j < |mine| ensures mine2[j].gradeType == mine[j].gradeType {
      assert mine2[j] == Touch(mine[j], id, change);
    }
    SameTypesFirstIndex(mine, mine2, t);
    assert mine2[k] == Touch(mine[k], id, change);
  }

  /** A grade added for a student with no grade of its type is the one that student's row shows. */
  lemma AddShows(grades: seq<Grade>, g: Grade, t: GradeType)
    requires g.gradeType == t && FirstOfType(ForStudent(grades, g.studentId), t).None?
    ensures FirstOfType(ForStudent(grades + [g], g.studentId), t) == Some(g)
  {
    var all := grades + [g];
    assert all[..|all| - 1] == grades;
    assert ForStudent(all, g.studentId) == ForStudent(grades, g.studentId) + [g];
    FirstOfTypeSnoc(ForStudent(grades, g.studentId), g, t);
  }

  /** A grade of a type the list lacks, added at its end, is the list's first grade of that type. */
  lemma FirstOfTypeSnoc(mine: seq<Grade>, g: Grade, t: GradeType)
    requires g.gradeType == t && FirstOfType(mine, t).None?
    ensures FirstOfType(mine + [g], t) == Some(g)
  {
    var s := mine + [g];
    forall j | 0 <= j < |mine| ensures s[j].gradeType != t {
      assert s[j] == mine[j];
    }
    assert s[|mine|] == g;
  }

  /** After a save, the student's reloaded row shows the saved score as the exam's percentage. */
  lemma SavedGradeShows(selectedClassId: string, userId: Option<string>, students: seq<Student>, classes: seq<ClassRecord>,
                        inputs: map<string, ScoreInputs>, rows: map<string, GradeRow>, studentId: string, exam: Exam,
                        now: Moment, grades: seq<Grade>, newId: string)
    requires FindStudent(students, studentId).Some?
    requires studentId in rows && rows[studentId] == RowOf(FindStudent(students, studentId).value, grades)
    requires SaveGrade(selectedClassId, userId, students, classes, inputs, rows, studentId, exam, now).Write?
    ensures var w := SaveGrade(selectedClassId, userId, students, classes, inputs, rows, studentId, exam, now).write;
      var row := RowOf(FindStudent(students, studentId).value, ApplyWrite(grades, w, newId));
      PercentOrZero(if exam == MidtermExam then row.midterm else row.final) == w.change.score
  {
    var w := SaveGrade(selectedClassId, userId, students, classes, inputs, rows, studentId, exam, now).write;
    var s := FindStudent(students, studentId).value;
    var t := KindOf(exam);
    var after := ApplyWrite(grades, w, newId);
    assert FirstOfType(ForStudent(grades, studentId), t) == ExistingGrade(rows, studentId, exam);
    var shown := FirstOfType(ForStudent(after, studentId), t);
    assert (if exam == MidtermExam then RowOf(s, after).midterm else RowOf(s, after).final) == shown;
    match w {
      case UpdateGrade(id, change) =>
        UpdateShows(grades, studentId, t, change);
      case AddGrade(_, _, _, _, _, change) =>
        AddShows(grades, after[|grades|], t);
        assert after == grades + [after[|grades|]];
    }
  }
}
