/** The class editor of src/pages/admin/AdminClasses.tsx: the schedule string it saves from the
    selected week days and start time ("Mon, Wed - 9:00 AM"), the parse that reloads a saved string
    into the dialog, the subject and teacher pickers, the required-field check and the enrollment
    checks. */
module ClassForm {
  import opened Wrappers
  import opened Days
  import opened Entities
  import Text
  import Sorting
  import Grouping
  import Clock
  import Schedules

  // ----- the saved schedule string -----

  /** The value of a time input: "HH:MM" with an hour below 24. */
  predicate IsTime24(t: string) {
    |t| == 5 && Text.AllDigits(t[..2]) && t[2] == ':' && Text.AllDigits(t[3..])
    && Text.DigitsValue(t[..2]) < 24
  }

  function PeriodText(pm: bool): string {
    if pm then "PM" else "AM"
  }

  /** convertTo12Hour: the dial hour without padding, the minutes as typed, and the period. */
  function ConvertTo12Hour(time24: string): (r: string)
    requires IsTime24(time24)
    ensures Text.Avoids(r, '-') && Text.Avoids(r, ',')
  {
    var hour24 := Text.DigitsValue(time24[..2]);
    var r := Text.NatToString(Clock.Hour12(hour24)) + ":" + time24[3..] + " " + PeriodText(Clock.IsPm(hour24));
    assert forall i :: 0 <= i < |r| ==> r[i] != '-' && r[i] != ',' by {
      var hs := Text.NatToString(Clock.Hour12(hour24));
      forall i | 0 <= i < |r| ensures r[i] != '-' && r[i] != ',' {
        if i < |hs| {
          assert r[i] == hs[i];
        } else if i > |hs| && i < |hs| + 3 {
          assert r[i] == time24[3..][i - |hs| - 1];
        }
      }
    }
    r
  }

  /** The 12-hour text: the dial hour's digits, then ":", the typed minutes, " " and the period, PM from
      hour 12 on. */
  lemma TwelveHourText(time24: string)
    requires IsTime24(time24)
    ensures var r := ConvertTo12Hour(time24);
      |r| >= 7 && r[|r| - 6..] == ":" + time24[3..] + " " + PeriodText(Text.DigitsValue(time24[..2]) >= 12)
      && Text.AllDigits(r[..|r| - 6]) && Text.DigitsValue(r[..|r| - 6]) == Clock.Hour12(Text.DigitsValue(time24[..2]))
  {
    var hour24 := Text.DigitsValue(time24[..2]);
    var hs := Text.NatToString(Clock.Hour12(hour24));
    var tail := ":" + time24[3..] + " " + PeriodText(Clock.IsPm(hour24));
    var r := ConvertTo12Hour(time24);
    assert r == hs + tail;
    assert |tail| == 6;
    assert r[..|r| - 6] == hs && r[|r| - 6..] == tail;
    Text.NatToStringValue(Clock.Hour12(hour24));
  }

  /** Sun..Sat order of the day picker. */
  function DayOrder(a: Weekday, b: Weekday): bool {
    DayNumber(a) <= DayNumber(b)
  }

  lemma DayOrderIsTotalPreorder()
    ensures Sorting.TotalPreorder(DayOrder)
  {
  }

  /** The abbreviations of a list of days, in list order. */
  function Abbrs(days: seq<Weekday>): (names: seq<string>)
    ensures |names| == |days|
    ensures forall i :: 0 <= i < |days| ==> names[i] == Abbr(days[i])
  {
    seq(|days|, i requires 0 <= i < |days| => Abbr(days[i]))
  }

  /** The selected days as abbreviations in Sun..Sat order, joined by ", ". */
  function DaysLabel(selectedDays: seq<Weekday>): string {
    Text.Join(Abbrs(Sorting.SortBy(selectedDays, DayOrder)), ", ")
  }

  /** formatSchedule: nothing without days, the days alone without a start time, and otherwise the
      days and the 12-hour start time around " - ". */
  function FormatSchedule(selectedDays: seq<Weekday>, startTime: string): (r: string)
    requires startTime == "" || IsTime24(startTime)
    ensures selectedDays == [] <==> r == ""
    ensures selectedDays != [] && startTime == "" ==> r == DaysLabel(selectedDays)
    ensures selectedDays != [] && startTime != "" ==> r == DaysLabel(selectedDays) + " - " + ConvertTo12Hour(startTime)
  {
    if selectedDays == [] then ""
    else
      var daysText := DaysLabel(selectedDays);
      assert daysText != "" by {
        var sorted := Sorting.SortBy(selectedDays, DayOrder);
        assert |Abbrs(sorted)| >= 1;
        JoinStartsWithFirst(Abbrs(sorted), ", ");
      }
      if startTime == "" then daysText else daysText + " - " + ConvertTo12Hour(startTime)
  }

  /** A join begins with its first piece. */
  lemma JoinStartsWithFirst(parts: seq<string>, sep: string)
    requires |parts| >= 1
    ensures |Text.Join(parts, sep)| >= |parts[0]|
    ensures Text.Join(parts, sep)[..|parts[0]|] == parts[0]
  {
    if |parts| > 1 {
      var j := Text.Join(parts, sep);
      assert j == parts[0] + sep + Text.Join(parts[1..], sep);
      assert j[..|parts[0]|] == parts[0];
    }
  }

  // ----- reading a 12-hour time, as /(\d{1,2}):(\d{2})\s*(AM|PM)/gi finds its first match -----

  /** The hour digits, the minute digits and the period of a match. */
  datatype TimeMatch = TimeMatch(hours: string, minutes: string, pm: bool)

  predicate WellFormed(m: TimeMatch) {
    1 <= |m.hours| <= 2 && Text.AllDigits(m.hours) && |m.minutes| == 2 && Text.AllDigits(m.minutes)
  }

  /** The first position at or after `k` that is not white space. */
  function SkipSpaces(s: string, k: nat): (j: nat)
    requires k <= |s|
    ensures k <= j <= |s|
    ensures j == |s| || !Text.IsSpace(s[j])
    ensures forall i :: k <= i < j ==> Text.IsSpace(s[i])
    decreases |s| - k
  {
    if k == |s| || !Text.IsSpace(s[k]) then k else SkipSpaces(s, k + 1)
  }

  /** "AM" or "PM" in any letter case at `k`; the result says whether it is PM. */
  function PeriodAt(s: string, k: nat): (r: Option<bool>)
    ensures r.Some? ==> k + 2 <= |s|
    ensures r == Some(true) <==> k + 2 <= |s| && (s[k] == 'P' || s[k] == 'p') && (s[k + 1] == 'M' || s[k + 1] == 'm')
    ensures r == Some(false) <==> k + 2 <= |s| && (s[k] == 'A' || s[k] == 'a') && (s[k + 1] == 'M' || s[k + 1] == 'm')
  {
    if k + 2 <= |s| && (s[k + 1] == 'M' || s[k + 1] == 'm') then
      if s[k] == 'A' || s[k] == 'a' then Some(false)
      else if s[k] == 'P' || s[k] == 'p' then Some(true)
      else None
    else None
  }

  /** The part of the pattern after the hour: ':', two digits, white space, then the period. */
  function RestAt(s: string, j: nat): (r: Option<(string, bool)>)
    ensures r.Some? ==> |r.value.0| == 2 && Text.AllDigits(r.value.0)
  {
    if j + 3 <= |s| && s[j] == ':' && Text.IsDigit(s[j + 1]) && Text.IsDigit(s[j + 2]) then
      match PeriodAt(s, SkipSpaces(s, j + 3))
      case None => None
      case Some(pm) => Some((s[j + 1..j + 3], pm))
    else None
  }

  /** A match starting at `i`: two hour digits are tried before one, as the greedy `\d{1,2}` does. */
  function MatchAt(s: string, i: nat): (r: Option<TimeMatch>)
    ensures r.Some? ==> WellFormed(r.value)
  {
    if i + 2 <= |s| && Text.IsDigit(s[i]) && Text.IsDigit(s[i + 1]) && RestAt(s, i + 2).Some? then
      var rest := RestAt(s, i + 2).value;
      Some(TimeMatch(s[i..i + 2], rest.0, rest.1))
    else if i + 1 <= |s| && Text.IsDigit(s[i]) && RestAt(s, i + 1).Some? then
      var rest := RestAt(s, i + 1).value;
      Some(TimeMatch(s[i..i + 1], rest.0, rest.1))
    else None
  }

  /** The leftmost match at or after `i`. */
  function FirstMatchFrom(s: string, i: nat): (r: Option<TimeMatch>)
    ensures r.Some? ==> WellFormed(r.value)
    ensures r.None? <==> forall j :: i <= j <= |s| ==> MatchAt(s, j).None?
    ensures r.Some? ==> exists j :: i <= j <= |s| && MatchAt(s, j) == r && forall k :: i <= k < j ==> MatchAt(s, k).None?
    decreases |s| - i
  {
    if i > |s| then None
    else
      match MatchAt(s, i)
      case Some(m) => Some(m)
      case None =>
        var r := FirstMatchFrom(s, i + 1);
        assert forall j :: i <= j <= |s| ==> MatchAt(s, j).None? <==> j == i || (i + 1 <= j <= |s| ==> MatchAt(s, j).None?);
        r
  }

  function FirstTimeMatch(s: string): (r: Option<TimeMatch>)
    ensures r.Some? ==> WellFormed(r.value)
  {
    FirstMatchFrom(s, 0)
  }

  /** convertTo24Hour on a match: PM adds twelve except to 12, 12 AM is 0, and the hour is padded to two
      digits. */
  function ConvertTo24Hour(m: TimeMatch): (r: string)
    requires WellFormed(m)
    ensures |r| >= 5 && r[|r| - 3..] == ":" + m.minutes
  {
    PaddedHour(Clock.Hour24(Text.DigitsValue(m.hours), m.pm)) + ":" + m.minutes
  }

  /** For a dial hour 1..12 the conversion is a time-input value on the same side of noon as the
      period says. */
  lemma ConvertTo24HourIsTime(m: TimeMatch)
    requires WellFormed(m) && 1 <= Text.DigitsValue(m.hours) <= 12
    ensures IsTime24(ConvertTo24Hour(m))
    ensures Clock.IsPm(Text.DigitsValue(ConvertTo24Hour(m)[..2])) == m.pm
  {
    var hour24 := Clock.Hour24(Text.DigitsValue(m.hours), m.pm);
    var hh := PaddedHour(hour24);
    var r := ConvertTo24Hour(m);
    assert r == hh + ":" + m.minutes;
    assert r[..2] == hh;
    assert r[3..] == m.minutes;
  }

  /** `hour24.toString().padStart(2, "0")`: two digits reading back as the hour, for an hour below 24. */
  function PaddedHour(hour24: nat): (hh: string)
    ensures |hh| >= 2 && Text.AllDigits(hh)
    ensures hour24 < 24 ==> |hh| == 2 && Text.DigitsValue(hh) == hour24
  {
    Text.PadStartValue(Text.NatToString(hour24), 2);
    Text.NatToStringValue(hour24);
    if hour24 < 24 then Text.NatToStringShort(hour24); Text.PadStart(Text.NatToString(hour24), 2)
    else Text.PadStart(Text.NatToString(hour24), 2)
  }

  // ----- reloading a saved schedule into the editor -----

  /** What handleEdit reads back: the known days in list order and, when the time part holds a match,
      the start time in 24-hour form. Nothing at all when the string has no " - ". */
  datatype EditFields = EditFields(days: seq<Weekday>, startTime: Option<string>)

  function ParseForEdit(schedule: string): (r: Option<EditFields>)
    ensures r.None? <==> !Text.Contains(schedule, " - ")
  {
    match Schedules.ParseClassSchedule(schedule)
    case None => None
    case Some((names, timePart)) =>
      var time := match FirstTimeMatch(timePart)
        case None => None
        case Some(m) => Some(ConvertTo24Hour(m));
      Some(EditFields(Schedules.KnownDays(names), time))
  }

  /** A schedule saved with days and a start time reloads as those days in Sun..Sat order and the same
      start time. */
  lemma EditReloadsSaved(selectedDays: seq<Weekday>, startTime: string)
    requires selectedDays != [] && IsTime24(startTime)
    ensures ParseForEdit(FormatSchedule(selectedDays, startTime))
         == Some(EditFields(Sorting.SortBy(selectedDays, DayOrder), Some(startTime)))
  {
    var sorted := Sorting.SortBy(selectedDays, DayOrder);
    var daysText := DaysLabel(selectedDays);
    var time12 := ConvertTo12Hour(startTime);
    LabelAvoids(sorted);
    Text.SplitPair(daysText, " - ", time12);
    assert daysText != "";
    LabelNames(sorted);
    TimeRoundTrip(startTime);
  }

  /** A schedule saved without a start time holds no " - ", so the editor reloads neither its days nor
      a time. */
  lemma DaysOnlyNotReloaded(selectedDays: seq<Weekday>)
    requires selectedDays != []
    ensures ParseForEdit(FormatSchedule(selectedDays, "")).None?
  {
    var sorted := Sorting.SortBy(selectedDays, DayOrder);
    LabelAvoids(sorted);
    Text.IndexOfAvoidingAt(DaysLabel(selectedDays), " - ", 1);
  }

  lemma LabelAvoids(days: seq<Weekday>)
    ensures Text.Avoids(Text.Join(Abbrs(days), ", "), '-')
  {
    var names := Abbrs(days);
    forall i | 0 <= i < |names| ensures Text.Avoids(names[i], '-') {
      AbbrShape(days[i]);
    }
    Text.JoinAvoids(names, ", ", '-');
  }

  /** Each abbreviation is three letters: no dash, comma or space. */
  lemma AbbrShape(d: Weekday)
    ensures |Abbr(d)| == 3
    ensures Text.Avoids(Abbr(d), '-') && Text.Avoids(Abbr(d), ',') && Text.Avoids(Abbr(d), ' ')
    ensures !Text.IsSpace(Abbr(d)[0]) && !Text.IsSpace(Abbr(d)[2])
  {
  }

  /** The day part of a saved schedule reads back as the days it was written from. */
  lemma LabelNames(days: seq<Weekday>)
    requires days != []
    ensures Schedules.KnownDays(Schedules.DayNames(Text.Join(Abbrs(days), ", "))) == days
  {
    NamesReadBack(days);
    KnownAbbrs(days);
  }

  /** Splitting the joined abbreviations on ", " and trimming each piece gives the abbreviations. */
  lemma NamesReadBack(days: seq<Weekday>)
    requires days != []
    ensures Schedules.DayNames(Text.Join(Abbrs(days), ", ")) == Abbrs(days)
  {
    var names := Abbrs(days);
    SplitNames(days);
    var trimmed := Schedules.DayNames(Text.Join(names, ", "));
    forall i | 0 <= i < |names| ensures trimmed[i] == names[i] {
      AbbrShape(days[i]);
      Text.TrimUnpadded(names[i]);
    }
  }

  lemma SplitNames(days: seq<Weekday>)
    requires days != []
    ensures Text.Split(Text.Join(Abbrs(days), ", "), ", ") == Abbrs(days)
  {
    var names := Abbrs(days);
    forall i | 0 <= i < |names| ensures Text.Avoids(names[i], ',') {
      AbbrShape(days[i]);
    }
    Text.SplitJoin(names, ", ");
  }

  lemma {:induction false} KnownAbbrs(days: seq<Weekday>)
    ensures Schedules.KnownDays(Abbrs(days)) == days
  {
    if days != [] {
      var init := days[..|days| - 1];
      assert Abbrs(days)[..|days| - 1] == Abbrs(init);
      KnownAbbrs(init);
      assert FromAbbr(Abbr(days[|days| - 1])) == Some(days[|days| - 1]);
      assert days == init + [days[|days| - 1]];
    }
  }

  /** convertTo24Hour of the first match in convertTo12Hour's output is the time it started from. */
  lemma TimeRoundTrip(startTime: string)
    requires IsTime24(startTime)
    ensures FirstTimeMatch(ConvertTo12Hour(startTime)).Some?
    ensures ConvertTo24Hour(FirstTimeMatch(ConvertTo12Hour(startTime)).value) == startTime
  {
    var hour24 := Text.DigitsValue(startTime[..2]);
    var h12 := Clock.Hour12(hour24);
    var hs := Text.NatToString(h12);
    var mm := startTime[3..];
    Text.NatToStringShort(h12);
    TwelveHourMatch(hs, mm, Clock.IsPm(hour24));
    assert ConvertTo12Hour(startTime) == hs + ":" + mm + " " + PeriodText(Clock.IsPm(hour24));
    HourReadBack(startTime, hs, mm);
  }

  /** The dial hour and period of a time input convert back to the time input. */
  lemma HourReadBack(startTime: string, hs: string, mm: string)
    requires IsTime24(startTime)
    requires hs == Text.NatToString(Clock.Hour12(Text.DigitsValue(startTime[..2]))) && mm == startTime[3..]
    requires |hs| <= 2
    ensures ConvertTo24Hour(TimeMatch(hs, mm, Clock.IsPm(Text.DigitsValue(startTime[..2])))) == startTime
  {
    var hour24 := Text.DigitsValue(startTime[..2]);
    Text.NatToStringValue(Clock.Hour12(hour24));
    Clock.HourRoundTrip(hour24);
    Text.TwoDigitsRoundTrip(startTime[..2]);
    assert PaddedHour(hour24) == startTime[..2];
    assert startTime == startTime[..2] + ":" + mm;
  }

  /** The first match in "h:mm AM" is its hour, minutes and period. */
  lemma TwelveHourMatch(hs: string, mm: string, pm: bool)
    requires 1 <= |hs| <= 2 && Text.AllDigits(hs) && |mm| == 2 && Text.AllDigits(mm)
    ensures FirstTimeMatch(hs + ":" + mm + " " + PeriodText(pm)) == Some(TimeMatch(hs, mm, pm))
  {
    var s := hs + ":" + mm + " " + PeriodText(pm);
    var n := |hs|;
    RestReads(hs, mm, pm);
    assert s[..n] == hs;
    if n == 2 {
      assert s[0..2] == hs;
    } else {
      assert s[0..1] == hs;
      assert !Text.IsDigit(s[1]);
    }
    assert MatchAt(s, 0) == Some(TimeMatch(hs, mm, pm));
  }

  /** After the hour digits, the rest of "h:mm AM" reads as its minutes and period. */
  lemma RestReads(hs: string, mm: string, pm: bool)
    requires |mm| == 2 && Text.AllDigits(mm)
    ensures RestAt(hs + ":" + mm + " " + PeriodText(pm), |hs|) == Some((mm, pm))
  {
    var s := hs + ":" + mm + " " + PeriodText(pm);
    var n := |hs|;
    assert s[n] == ':' && s[n + 1] == mm[0] && s[n + 2] == mm[1] && s[n + 3] == ' ';
    assert s[n + 4] == PeriodText(pm)[0] && s[n + 5] == PeriodText(pm)[1];
    assert SkipSpaces(s, n + 4) == n + 4;
    assert SkipSpaces(s, n + 3) == n + 4;
    assert s[n + 1..n + 3] == mm;
  }

  /** A saved schedule expands into one entry per selected day and enrolled student (one per day when
      nobody is enrolled). */
  lemma SavedScheduleExpands(c: ClassRecord, selectedDays: seq<Weekday>, startTime: string, students: seq<string>)
    requires selectedDays != [] && IsTime24(startTime) && c.schedule == FormatSchedule(selectedDays, startTime)
    ensures |Schedules.SchedulesFor(c, students)| == |selectedDays| * (if |students| > 0 then |students| else 1)
  {
    var sorted := Sorting.SortBy(selectedDays, DayOrder);
    var daysText := DaysLabel(selectedDays);
    LabelAvoids(sorted);
    Text.SplitPair(daysText, " - ", ConvertTo12Hour(startTime));
    LabelNames(sorted);
    Schedules.ExpansionSize(c, Schedules.DayNames(daysText), ConvertTo12Hour(startTime), students);
  }

  /** The service reads a saved schedule back as the selected days' abbreviations in Sun..Sat order and
      the 12-hour start time. */
  lemma SavedScheduleParses(selectedDays: seq<Weekday>, startTime: string)
    requires selectedDays != [] && IsTime24(startTime)
    ensures Schedules.ParseClassSchedule(FormatSchedule(selectedDays, startTime))
      == Some((Abbrs(Sorting.SortBy(selectedDays, DayOrder)), ConvertTo12Hour(startTime)))
  {
    var sorted := Sorting.SortBy(selectedDays, DayOrder);
    var daysText := DaysLabel(selectedDays);
    LabelAvoids(sorted);
    Text.SplitPair(daysText, " - ", ConvertTo12Hour(startTime));
    NamesReadBack(sorted);
  }

  // ----- pickers -----

  /** getUniqueSubjects: the non-blank subjects of the teachers, each once, in code-unit order. */
  function UniqueSubjects(teachers: seq<Teacher>): (r: seq<string>)
    ensures Grouping.Distinct(r)
    ensures Sorting.SortedBy(r, Sorting.LexLe)
    ensures forall s :: s in r <==> !Text.IsBlank(s) && exists t :: t in teachers && t.subject == s
  {
    var distinct := NonBlankSubjects(teachers);
    SortedDistinct(distinct);
    Sorting.SortBy(distinct, Sorting.LexLe)
  }

  /** The `new Set` of the non-blank subjects, in first-seen order. */
  function NonBlankSubjects(teachers: seq<Teacher>): (r: seq<string>)
    ensures Grouping.Distinct(r)
    ensures forall s :: s in r <==> !Text.IsBlank(s) && exists t :: t in teachers && t.subject == s
  {
    var all := SubjectsOf(teachers);
    var subjects := Grouping.Filter(all, (s: string) => !Text.IsBlank(s));
    var r := Grouping.KeysInOrder(subjects, (s: string) => s);
    DistinctKeys(subjects);
    assert forall s :: s in r <==> s in subjects;
    assert forall s :: s in subjects <==> s in all && !Text.IsBlank(s);
    r
  }

  /** The keys of a list under the identity are its members. */
  lemma DistinctKeys(xs: seq<string>)
    ensures forall s :: s in Grouping.KeysInOrder(xs, (s: string) => s) <==> s in xs
  {
    forall s ensures s in Grouping.KeysInOrder(xs, (s: string) => s) <==> s in xs {
      if s in xs {
        var i :| 0 <= i < |xs| && xs[i] == s;
      }
    }
  }

  /** Sorting a list without repeats in code-unit order keeps it without repeats and with the same
      members. */
  lemma SortedDistinct(xs: seq<string>)
    requires Grouping.Distinct(xs)
    ensures Grouping.Distinct(Sorting.SortBy(xs, Sorting.LexLe))
    ensures Sorting.SortedBy(Sorting.SortBy(xs, Sorting.LexLe), Sorting.LexLe)
    ensures forall s :: s in Sorting.SortBy(xs, Sorting.LexLe) <==> s in xs
  {
    var r := Sorting.SortBy(xs, Sorting.LexLe);
    Sorting.LexLeIsTotalPreorder();
    Sorting.SortBySorted(xs, Sorting.LexLe);
    Grouping.SameMembers(xs, r);
    Grouping.DistinctPermutation(xs, r);
  }

  function SubjectsOf(teachers: seq<Teacher>): (r: seq<string>)
    ensures forall s :: s in r <==> exists t :: t in teachers && t.subject == s
  {
    var r := seq(|teachers|, i requires 0 <= i < |teachers| => teachers[i].subject);
    assert forall t :: t in teachers ==> t.subject in r by {
      forall t | t in teachers ensures t.subject in r {
        var i :| 0 <= i < |teachers| && teachers[i] == t;
        assert r[i] == t.subject;
      }
    }
    r
  }

  /** getTeachersBySubject: the Active teachers whose subject is exactly the given one, in list order. */
  function TeachersBySubject(teachers: seq<Teacher>, subject: string): (r: seq<Teacher>)
    ensures forall t :: t in r <==> t in teachers && t.subject == subject && t.status == TeacherActive
  {
    Grouping.Filter(teachers, (t: Teacher) => t.subject == subject && t.status == TeacherActive)
  }

  // ----- checks before saving -----

  /** Saving needs a subject, a grade, a teacher id and a teacher name. */
  function RequiredFieldsPresent(c: ClassRecord): (ok: bool)
    ensures ok <==> c.name != [] && c.grade != [] && c.teacherId != [] && c.teacherName != []
  {
    !(c.name == "" || c.grade == "" || c.teacherId == "" || c.teacherName == "")
  }

  datatype EnrollError = NoSelection | AlreadyEnrolled

  /** handleAddEnrollment's checks: a class and a student must be chosen, and the student must not
      hold an Active enrollment among the class's enrollments. */
  function CheckEnrollment(classId: string, studentId: string, enrollments: seq<Enrollment>): (r: Result<(), EnrollError>)
    ensures r == Failure(NoSelection) <==> classId == "" || studentId == ""
    ensures r == Failure(AlreadyEnrolled)
        <==> (classId != "" && studentId != ""
              && exists e :: e in enrollments && e.studentId == studentId && e.status == EnrollmentActive)
    ensures r.Success?
        <==> (classId != "" && studentId != ""
              && forall e :: e in enrollments && e.studentId == studentId ==> e.status != EnrollmentActive)
  {
    if classId == "" || studentId == "" then Failure(NoSelection)
    else if exists e :: e in enrollments && e.studentId == studentId && e.status == EnrollmentActive then Failure(AlreadyEnrolled)
    else Success(())
  }

  function EnrolledIds(enrollments: seq<Enrollment>): (ids: seq<string>)
    ensures forall id :: id in ids <==> exists e :: e in enrollments && e.studentId == id
  {
    var ids := seq(|enrollments|, i requires 0 <= i < |enrollments| => enrollments[i].studentId);
    assert forall e :: e in enrollments ==> e.studentId in ids by {
      forall e | e in enrollments ensures e.studentId in ids {
        var i :| 0 <= i < |enrollments| && enrollments[i] == e;
        assert ids[i] == e.studentId;
      }
    }
    ids
  }

  /** getEnrollmentsByClass: the store's enrollments of the class whose status is Active. The page's
      enrollment list is always this query's answer. */
  function ClassEnrollments(all: seq<Enrollment>, classId: string): (r: seq<Enrollment>)
    ensures forall e :: e in r <==> e in all && e.classId == classId && e.status == EnrollmentActive
  {
    Grouping.Filter(all, (e: Enrollment) => e.classId == classId && e.status == EnrollmentActive)
  }

  /** The students offered for enrollment: those with no enrollment in the page's list, in list
      order. */
  function AvailableStudents(students: seq<Student>, enrollments: seq<Enrollment>): (r: seq<Student>)
    ensures forall s :: s in r <==> s in students && forall e :: e in enrollments ==> e.studentId != s.id
  {
    var ids := EnrolledIds(enrollments);
    Grouping.Filter(students, (s: Student) => s.id !in ids)
  }

  /** The page's list holds Active enrollments only, so a student whose enrollments in the class were
      all dropped or completed is offered again, and enrolling them passes the duplicate check. */
  lemma DroppedOfferedAgain(all: seq<Enrollment>, classId: string, students: seq<Student>, s: Student)
    requires classId != "" && s.id != "" && s in students
    requires forall e :: e in all && e.classId == classId && e.studentId == s.id ==> e.status != EnrollmentActive
    ensures s in AvailableStudents(students, ClassEnrollments(all, classId))
    ensures CheckEnrollment(classId, s.id, ClassEnrollments(all, classId)).Success?
  {
    var list := ClassEnrollments(all, classId);
    assert forall e :: e in list ==> e.studentId != s.id;
  }

  /** On the page's list, the duplicate check refuses exactly the students that are not offered. */
  lemma CheckAgreesWithOffer(all: seq<Enrollment>, classId: string, students: seq<Student>, s: Student)
    requires classId != "" && s.id != "" && s in students
    ensures var list := ClassEnrollments(all, classId);
      CheckEnrollment(classId, s.id, list).Success? <==> s in AvailableStudents(students, list)
  {
    var list := ClassEnrollments(all, classId);
    assert forall e :: e in list ==> e.status == EnrollmentActive;
  }
}
