/** The teacher's class list of src/pages/teacher/TeacherClasses.tsx: the "next class" label read from a
    class's schedule string, the list of a class's enrolled students, newest enrollment first, and the
    checks and the order of the steps of a curriculum upload. The current weekday, the fetched lists and
    the outcome of each storage call are parameters. */
module TeacherClasses {
  import opened Wrappers
  import opened Days
  import opened Calendar
  import opened Entities
  import Text
  import Sorting
  import Grouping

  // ----- next class -----

  /** The weekday after `d`, Saturday followed by Sunday. */
  function NextDay(d: Weekday): Weekday {
    match d
    case Sunday => Monday
    case Monday => Tuesday
    case Tuesday => Wednesday
    case Wednesday => Thursday
    case Thursday => Friday
    case Friday => Saturday
    case Saturday => Sunday
  }

  /** The weekday `i` days after `today`. */
  function DayAt(today: Weekday, i: nat): Weekday {
    if i == 0 then today else NextDay(DayAt(today, i - 1))
  }

  /** `dayNames[(todayDayIndex + i) % 7]`: counting `i` days ahead wraps around the week. */
  lemma {:induction false} DayAtNumber(today: Weekday, i: nat)
    ensures DayNumber(DayAt(today, i)) == (DayNumber(today) + i) % 7
  {
    if i > 0 {
      DayAtNumber(today, i - 1);
    }
  }

  /** The abbreviation of the weekday `i` days ahead is one of the listed day names. */
  predicate Listed(days: seq<string>, today: Weekday, i: nat) {
    Abbr(DayAt(today, i)) in days
  }

  /** `i` is the first offset of the coming week whose weekday is listed. */
  predicate FirstListed(days: seq<string>, today: Weekday, i: nat) {
    i < 7 && Listed(days, today, i) && forall j :: 0 <= j < i ==> !Listed(days, today, j)
  }

  predicate NoneListed(days: seq<string>, today: Weekday) {
    forall i :: 0 <= i < 7 ==> !Listed(days, today, i)
  }

  /** How the page words a class `i` days ahead. */
  function Phrase(i: nat, today: Weekday, time: string): string {
    if i == 0 then "Today, " + time
    else if i == 1 then "Tomorrow, " + time
    else Abbr(DayAt(today, i)) + ", " + time
  }

  /** The day list and the time of a schedule string: the names before the first " - " split on ", ",
      and the text between it and the next " - "; nothing for a string without one. */
  function ScheduleParts(schedule: string): (r: Option<(seq<string>, string)>)
    ensures r.None? <==> |Text.Split(schedule, " - ")| < 2
    ensures r.Some? ==> |r.value.0| >= 1
  {
    var parts := Text.Split(schedule, " - ");
    if |parts| < 2 then None else Some((Text.Split(parts[0], ", "), parts[1]))
  }

  /** getNextClass: "No schedule" for an empty schedule and the schedule itself when it has no " - ".
      Otherwise the label names the first listed weekday from today on, and when no listed name is a
      weekday abbreviation, the first listed name. */
  method NextClass(schedule: string, today: Weekday) returns (shown: string)
    ensures schedule == "" ==> shown == "No schedule"
    ensures schedule != "" && ScheduleParts(schedule).None? ==> shown == schedule
    ensures schedule != "" && ScheduleParts(schedule).Some? ==>
      var (days, time) := ScheduleParts(schedule).value;
      (NoneListed(days, today) ==> shown == days[0] + ", " + time)
      && (!NoneListed(days, today) ==> exists i :: FirstListed(days, today, i) && shown == Phrase(i, today, time))
  {
    if schedule == "" {
      return "No schedule";
    }
    var parts := ScheduleParts(schedule);
    if parts.None? {
      return schedule;
    }
    var (days, time) := parts.value;
    var offset := FirstListedOffset(days, today);
    if offset.None? {
      return days[0] + ", " + time;
    }
    shown := Phrase(offset.value, today, time);
  }

  /** The loop of getNextClass: the days from today on, checked one at a time, stopping at the first
      listed one. */
  method FirstListedOffset(days: seq<string>, today: Weekday) returns (offset: Option<nat>)
    ensures offset.None? <==> NoneListed(days, today)
    ensures offset.Some? ==> FirstListed(days, today, offset.value)
  {
    var i := 0;
    while i < 7 && !Listed(days, today, i)
      invariant 0 <= i <= 7
      invariant forall j :: 0 <= j < i ==> !Listed(days, today, j)
    {
      i := i + 1;
    }
    offset := if i < 7 then Some(i) else None;
  }

  /** The search covers the whole week: it falls back on the first listed name exactly when none of the
      listed names is a weekday abbreviation. */
  lemma NoneListedIffNoWeekday(days: seq<string>, today: Weekday)
    ensures NoneListed(days, today) <==> forall d: Weekday :: Abbr(d) !in days
  {
    if NoneListed(days, today) {
      forall d: Weekday ensures Abbr(d) !in days {
        var i := (DayNumber(d) + 7 - DayNumber(today)) % 7;
        DayAtNumber(today, i);
        assert DayNumber(DayAt(today, i)) == DayNumber(d);
        assert !Listed(days, today, i);
      }
    }
  }

  /** The label of a listed day names a weekday on the list, and at most six days ahead. */
  lemma PhraseNamesListedDay(days: seq<string>, today: Weekday, i: nat, time: string)
    requires FirstListed(days, today, i)
    ensures i >= 2 ==> Phrase(i, today, time) == Abbr(DayAt(today, i)) + ", " + time && Abbr(DayAt(today, i)) in days
    ensures i >= 2 ==> DayNumber(DayAt(today, i)) == (DayNumber(today) + i) % 7
  {
    DayAtNumber(today, i);
  }

  /** A listed abbreviation for today always reads "Today". */
  lemma TodayWins(days: seq<string>, today: Weekday)
    requires Abbr(today) in days
    ensures FirstListed(days, today, 0)
  {
  }

  // ----- enrolled students -----

  /** A row of the student list: the student and when they enrolled, if known. */
  datatype EnrolledStudent = EnrolledStudent(student: Student, enrolledAt: Option<Moment>)

  /** The enrollments whose student exists, in enrollment order, each with its first matching student. */
  function JoinEnrolled(enrollments: seq<Enrollment>, students: seq<Student>): (rows: seq<EnrolledStudent>)
    ensures |rows| <= |enrollments|
    ensures forall r :: r in rows <==>
      (exists e :: e in enrollments && FindStudent(students, e.studentId) == Some(r.student) && r.enrolledAt == e.enrolledAt)
    ensures (forall e :: e in enrollments ==> FindStudent(students, e.studentId).Some?) ==> |rows| == |enrollments|
  {
    if enrollments == [] then []
    else
      var init := enrollments[..|enrollments| - 1];
      var e := enrollments[|enrollments| - 1];
      assert enrollments == init + [e];
      var before := JoinEnrolled(init, students);
      match FindStudent(students, e.studentId)
      case None => before
      case Some(s) => before + [EnrolledStudent(s, e.enrolledAt)]
  }

  /** `enrolledAt?.getTime() || 0`: a missing date counts as the epoch. */
  function EnrolledTime(r: EnrolledStudent): Moment {
    r.enrolledAt.GetOr(Midnight(Date(1970, 1, 1)))
  }

  /** `dateB - dateA`: later enrollments first. */
  function NewerFirst(a: EnrolledStudent, b: EnrolledStudent): bool {
    !Before(EnrolledTime(a), EnrolledTime(b))
  }

  lemma NewerFirstIsTotalPreorder()
    ensures Sorting.TotalPreorder(NewerFirst)
  {
    forall a, b ensures NewerFirst(a, b) || NewerFirst(b, a) {
      BeforeIsStrictOrder(EnrolledTime(a), EnrolledTime(b), EnrolledTime(a));
    }
    forall a, b, c | NewerFirst(a, b) && NewerFirst(b, c) ensures NewerFirst(a, c) {
      BeforeIsStrictOrder(EnrolledTime(a), EnrolledTime(b), EnrolledTime(c));
    }
  }

  /** handleOpenStudentsDialog: the joined rows sorted newest first, or the load error when either
      fetch failed. */
  function StudentList(enrollments: Option<seq<Enrollment>>, students: Option<seq<Student>>): (r: Result<seq<EnrolledStudent>, string>)
    ensures r.Failure? <==> enrollments.None? || students.None?
    ensures r.Failure? ==> r.error == "Failed to load student list. Please try again."
    ensures r.Success? ==> multiset(r.value) == multiset(JoinEnrolled(enrollments.value, students.value))
  {
    if enrollments.None? || students.None? then Failure("Failed to load student list. Please try again.")
    else Success(Sorting.SortBy(JoinEnrolled(enrollments.value, students.value), NewerFirst))
  }

  /** The loaded list holds exactly the enrolled students that exist, newest enrollment first. */
  lemma StudentListShape(enrollments: seq<Enrollment>, students: seq<Student>)
    ensures var r := StudentList(Some(enrollments), Some(students));
      r.Success? && Sorting.SortedBy(r.value, NewerFirst)
      && forall row :: row in r.value <==>
           (exists e :: e in enrollments && FindStudent(students, e.studentId) == Some(row.student) && row.enrolledAt == e.enrolledAt)
  {
    var joined := JoinEnrolled(enrollments, students);
    NewerFirstIsTotalPreorder();
    Sorting.SortBySorted(joined, NewerFirst);
    Grouping.SameMembers(Sorting.SortBy(joined, NewerFirst), joined);
  }

  // ----- curriculum upload -----

  /** The file the teacher picked: its name and MIME type. */
  datatype PickedFile = PickedFile(name: string, mimeType: string)

  /** The calls an upload makes, in order. */
  datatype StorageStep =
    | StoreFile(classId: string, fileName: string)
    | RecordCurriculum(classId: string, url: string, fileName: string, storagePath: string)
    | DeleteFile(path: string)

  datatype UploadOutcome =
    | Rejected(message: string)
    | Ran(steps: seq<StorageStep>, succeeded: bool)

  /** handleUploadCurriculum: the dialog's checks, then store the file, record it on the class, and
      only then delete the class's previous file (whose failure is only logged). `stored` is the
      download URL and storage path the store call returned, None when it failed; `recorded` says
      whether the class update went through. */
  function UploadCurriculum(dialogClassId: Option<string>, file: Option<PickedFile>, classes: seq<ClassRecord>,
                            stored: Option<(string, string)>, recorded: bool): (r: UploadOutcome)
    ensures r.Rejected? <==>
      dialogClassId.None? || file.None? || file.value.mimeType != "application/pdf"
      || FindClass(classes, dialogClassId.value).None?
    ensures r.Rejected? && (dialogClassId.None? || file.None?) ==> r.message == "Please select a PDF file to upload."
    ensures r.Ran? ==> (r.succeeded <==> stored.Some? && recorded)
    ensures r.Ran? ==> |r.steps| >= 1 && r.steps[0] == StoreFile(dialogClassId.value, file.value.name)
    ensures r.Ran? ==> forall i :: 0 <= i < |r.steps| && r.steps[i].DeleteFile? ==>
      (i == 2 && r.steps[1].RecordCurriculum? && r.succeeded
       && FindClass(classes, dialogClassId.value).value.curriculumStoragePath == Some(r.steps[i].path))
  {
    if dialogClassId.None? || file.None? then Rejected("Please select a PDF file to upload.")
    else if file.value.mimeType != "application/pdf" then Rejected("Only PDF files are supported.")
    else
      match FindClass(classes, dialogClassId.value)
      case None => Rejected("Unable to find the selected class.")
      case Some(c) =>
        var store := StoreFile(c.id, file.value.name);
        match stored
        case None => Ran([store], false)
        case Some((url, path)) =>
          var record := RecordCurriculum(c.id, url, file.value.name, path);
          if !recorded then Ran([store, record], false)
          else if c.curriculumStoragePath.Some? && c.curriculumStoragePath.value != "" then
            Ran([store, record, DeleteFile(c.curriculumStoragePath.value)], true)
          else Ran([store, record], true)
  }

  /** A successful upload replaces the class's file: the new path is recorded, and a previous file, when
      there was one, is deleted. */
  lemma UploadReplacesFile(classId: string, file: PickedFile, classes: seq<ClassRecord>, url: string, path: string)
    requires file.mimeType == "application/pdf" && FindClass(classes, classId).Some?
    ensures var c := FindClass(classes, classId).value;
      var r := UploadCurriculum(Some(classId), Some(file), classes, Some((url, path)), true);
      r.Ran? && r.succeeded && r.steps[1] == RecordCurriculum(classId, url, file.name, path)
      && (DeleteFile(c.curriculumStoragePath.GetOr("")) in r.steps <==> c.curriculumStoragePath.GetOr("") != "")
  {
  }
}
