/** The weekly schedule entries of src/services/firebase/schedules.service.ts: reading a class's
    schedule string ("Mon, Wed, Fri - 9:00 AM"), expanding it into one entry per day and enrolled
    student, replacing a class's stored entries, regenerating every class, and the day-then-time order
    of the teacher schedule list. */
module Schedules {
  import opened Wrappers
  import opened Days
  import opened Entities
  import Text
  import Sorting
  import Grouping

  /** `classItem.room || "TBD"`. */
  function RoomOf(c: ClassRecord): (room: string)
    ensures room == "TBD" || (c.room.Some? && room == c.room.value)
    ensures c.room.Some? && c.room.value != "" ==> room == c.room.value
  {
    Text.OrElse(c.room, "TBD")
  }

  /** The trimmed pieces of the day list, split on ", ". */
  function DayNames(daysPart: string): (names: seq<string>)
    ensures |names| == |Text.Split(daysPart, ", ")|
    ensures forall i :: 0 <= i < |names| ==> names[i] == Text.Trim(Text.Split(daysPart, ", ")[i])
    ensures forall i :: 0 <= i < |names| ==> Text.Trim(names[i]) == names[i]
  {
    var pieces := Text.Split(daysPart, ", ");
    seq(|pieces|, i requires 0 <= i < |pieces| => TrimmedPiece(pieces[i]))
  }

  function TrimmedPiece(piece: string): (r: string)
    ensures r == Text.Trim(piece) && Text.Trim(r) == r
  {
    Text.TrimIdempotent(piece);
    Text.Trim(piece)
  }

  /** The schedule string read as day names and a time: nothing for an empty string or one without
      " - "; otherwise the trimmed names before the first " - " and the text up to the next one. */
  function ParseClassSchedule(schedule: string): (r: Option<(seq<string>, string)>)
    ensures r.None? <==> schedule == "" || !Text.Contains(schedule, " - ")
    ensures r.Some? ==> !Text.Contains(r.value.1, " - ")
    ensures r.Some? ==> forall i :: 0 <= i < |r.value.0| ==> Text.Trim(r.value.0[i]) == r.value.0[i]
    ensures r.Some? ==>
      var parts := Text.Split(schedule, " - ");
      |parts| >= 2 && r.value.1 == parts[1]
      && |r.value.0| == |Text.Split(parts[0], ", ")|
      && forall i :: 0 <= i < |r.value.0| ==> r.value.0[i] == Text.Trim(Text.Split(parts[0], ", ")[i])
  {
    if schedule == "" then None
    else
      var parts := Text.Split(schedule, " - ");
      if |parts| < 2 then None
      else
        Text.SplitPiecesFree(schedule, " - ");
        Some((DayNames(parts[0]), parts[1]))
  }

  /** The entry the service writes for one class, day and (possibly absent) student. */
  function Entry(c: ClassRecord, studentId: Option<string>, day: Weekday, time: string): ScheduleEntry {
    ScheduleEntry(c.id, studentId, c.teacherId, day, time, c.name, c.teacherName, RoomOf(c))
  }

  /** One entry per student, in student order. */
  function PerStudent(c: ClassRecord, day: Weekday, time: string, students: seq<string>): (r: seq<ScheduleEntry>)
    ensures |r| == |students|
    ensures forall i :: 0 <= i < |r| ==> r[i] == Entry(c, Some(students[i]), day, time)
  {
    seq(|students|, i requires 0 <= i < |students| => Entry(c, Some(students[i]), day, time))
  }

  /** The entries of one known day: one per enrolled student, or a single one without a student. */
  function DayEntries(c: ClassRecord, day: Weekday, time: string, students: seq<string>): seq<ScheduleEntry> {
    if |students| > 0 then PerStudent(c, day, time, students) else [Entry(c, None, day, time)]
  }

  /** The expansion of a day list: unknown names skipped, each known one expanded in list order. */
  function Expansion(c: ClassRecord, days: seq<string>, time: string, students: seq<string>): seq<ScheduleEntry> {
    if days == [] then []
    else
      var before := Expansion(c, days[..|days| - 1], time, students);
      match FromAbbr(days[|days| - 1])
      case None => before
      case Some(day) => before + DayEntries(c, day, time, students)
  }

  /** The known days of a day list, in list order. */
  function KnownDays(days: seq<string>): seq<Weekday> {
    if days == [] then []
    else
      var before := KnownDays(days[..|days| - 1]);
      match FromAbbr(days[|days| - 1])
      case None => before
      case Some(day) => before + [day]
  }

  /** `e` is an entry the class's expansion can hold: a known listed day, the class's own fields and
      time, and an enrolled student, or no student when there are none. */
  predicate EntryOf(e: ScheduleEntry, c: ClassRecord, days: seq<string>, time: string, students: seq<string>) {
    e.day in KnownDays(days)
    && e.classId == c.id && e.teacherId == c.teacherId && e.subject == c.name && e.teacher == c.teacherName
    && e.room == RoomOf(c) && e.time == time
    && (if |students| > 0 then e.studentId.Some? && e.studentId.value in students else e.studentId.None?)
  }

  /** The number of entries a known day expands to. */
  function PerDay(students: seq<string>): nat {
    if |students| > 0 then |students| else 1
  }

  /** With k > 0 students there is one entry per known day and student; with none, one per known day. */
  lemma {:induction false} ExpansionSize(c: ClassRecord, days: seq<string>, time: string, students: seq<string>)
    ensures |Expansion(c, days, time, students)| == |KnownDays(days)| * PerDay(students)
  {
    if days != [] {
      var init := days[..|days| - 1];
      ExpansionSize(c, init, time, students);
      var n := |KnownDays(init)|;
      match FromAbbr(days[|days| - 1]) {
        case None =>
          assert |Expansion(c, days, time, students)| == |Expansion(c, init, time, students)|;
          assert |KnownDays(days)| == n;
        case Some(day) =>
          assert |Expansion(c, days, time, students)| == |Expansion(c, init, time, students)| + PerDay(students);
          assert |KnownDays(days)| == n + 1;
          MulSucc(n, PerDay(students));
      }
    }
  }

  lemma MulSucc(n: nat, k: nat)
    ensures (n + 1) * k == n * k + k
  {
  }

  /** The expansion holds exactly the entries of the class's known days and students. */
  lemma {:induction false} ExpansionMembers(c: ClassRecord, days: seq<string>, time: string, students: seq<string>)
    ensures forall e :: e in Expansion(c, days, time, students) <==> EntryOf(e, c, days, time, students)
  {
    if days != [] {
      var init := days[..|days| - 1];
      ExpansionMembers(c, init, time, students);
      match FromAbbr(days[|days| - 1])
      case None =>
      case Some(day) =>
        forall e ensures e in DayEntries(c, day, time, students) <==> EntryOf(e, c, [days[|days| - 1]], time, students) {
          assert KnownDays([days[|days| - 1]]) == [day] by {
            assert [days[|days| - 1]][..0] == [];
          }
          if |students| > 0 && e in DayEntries(c, day, time, students) {
            var i :| 0 <= i < |students| && PerStudent(c, day, time, students)[i] == e;
            assert students[i] in students;
          }
          if |students| > 0 && EntryOf(e, c, [days[|days| - 1]], time, students) {
            var i :| 0 <= i < |students| && students[i] == e.studentId.value;
            assert PerStudent(c, day, time, students)[i] == e;
          }
        }
    }
  }

  /** The entries of a parsed schedule, or none when the string does not parse. */
  function SchedulesFor(c: ClassRecord, students: seq<string>): seq<ScheduleEntry> {
    match ParseClassSchedule(c.schedule)
    case None => []
    case Some((days, time)) => Expansion(c, days, time, students)
  }

  /** createSchedulesFromClass's nested loops: for each listed day that is known, one entry per enrolled
      student, or one entry without a student when nobody is enrolled. */
  method BuildSchedules(c: ClassRecord, days: seq<string>, time: string, students: seq<string>) returns (schedules: seq<ScheduleEntry>)
    ensures schedules == Expansion(c, days, time, students)
  {
    schedules := [];
    for i := 0 to |days|
      invariant schedules == Expansion(c, days[..i], time, students)
    {
      assert days[..i + 1][..i] == days[..i];
      match FromAbbr(days[i]) {
        case None =>
        case Some(day) =>
          if |students| > 0 {
            ghost var before := schedules;
            for j := 0 to |students|
              invariant schedules == before + PerStudent(c, day, time, students[..j])
            {
              assert PerStudent(c, day, time, students[..j + 1]) == PerStudent(c, day, time, students[..j]) + [Entry(c, Some(students[j]), day, time)];
              schedules := schedules + [Entry(c, Some(students[j]), day, time)];
            }
            assert students[..|students|] == students;
          } else {
            schedules := schedules + [Entry(c, None, day, time)];
          }
      }
    }
    assert days[..|days|] == days;
  }

  /** The document written for an entry: `studentId` is set only when it is a non-empty string. */
  function Stored(e: ScheduleEntry): (d: ScheduleEntry)
    ensures d.studentId.Some? <==> e.studentId.Some? && e.studentId.value != ""
    ensures d.classId == e.classId && d.teacherId == e.teacherId && d.day == e.day && d.time == e.time
    ensures d.subject == e.subject && d.teacher == e.teacher && d.room == e.room
  {
    e.(studentId := Text.NonEmpty(e.studentId))
  }

  function StoredAll(entries: seq<ScheduleEntry>): seq<ScheduleEntry> {
    seq(|entries|, i requires 0 <= i < |entries| => Stored(entries[i]))
  }

  lemma StoredAllStep(entries: seq<ScheduleEntry>, i: nat)
    requires i < |entries|
    ensures StoredAll(entries[..i + 1]) == StoredAll(entries[..i]) + [Stored(entries[i])]
  {
    assert StoredAll(entries[..i + 1])[i] == Stored(entries[i]);
  }

  /** The stored entries after deleteSchedulesByClassId. */
  function WithoutClass(entries: seq<ScheduleEntry>, classId: string): (r: seq<ScheduleEntry>)
    ensures forall e :: e in r <==> e in entries && e.classId != classId
  {
    Grouping.Filter(entries, (e: ScheduleEntry) => e.classId != classId)
  }

  /** The schedules collection. */
  class ScheduleStore {
    var entries: seq<ScheduleEntry>

    constructor()
      ensures entries == []
    {
      entries := [];
    }

    /** deleteSchedulesByClassId: every entry of the class goes, every other entry stays in place. */
    method DeleteByClass(classId: string)
      modifies this
      ensures entries == WithoutClass(old(entries), classId)
    {
      entries := WithoutClass(entries, classId);
    }

    /** createSchedulesFromClass: the class's old entries are deleted first, then the expansion of its
        schedule string is written one document at a time; an empty or unparsable string writes none.
        A failed enrollment lookup leaves the student list empty, so `students` is [] then. */
    method CreateFromClass(c: ClassRecord, students: seq<string>) returns (created: nat)
      modifies this
      ensures entries == WithoutClass(old(entries), c.id) + StoredAll(SchedulesFor(c, students))
      ensures created == |SchedulesFor(c, students)|
    {
      DeleteByClass(c.id);
      var parsed := ParseClassSchedule(c.schedule);
      var schedules := [];
      if parsed.Some? {
        schedules := BuildSchedules(c, parsed.value.0, parsed.value.1, students);
      }
      WriteAll(schedules);
      created := |schedules|;
    }

    /** The write loop of createSchedulesFromClass: one document per entry, in order. */
    method WriteAll(schedules: seq<ScheduleEntry>)
      modifies this
      ensures entries == old(entries) + StoredAll(schedules)
    {
      for i := 0 to |schedules|
        invariant entries == old(entries) + StoredAll(schedules[..i])
      {
        StoredAllStep(schedules, i);
        entries := entries + [Stored(schedules[i])];
      }
      assert schedules[..|schedules|] == schedules;
    }

    /** createSchedulesFromAllClasses: each class is regenerated in turn; a class whose regeneration
        fails (`failing`, standing for the store errors the loop catches) is skipped and the loop goes
        on; the result counts the classes that succeeded. */
    method CreateFromAllClasses(classes: seq<ClassRecord>, enrolled: map<string, seq<string>>, failing: set<string>)
      returns (totalCreated: nat)
      modifies this
      ensures totalCreated == |Succeeding(classes, failing)| <= |classes|
      ensures entries == Regenerated(old(entries), Succeeding(classes, failing), enrolled)
    {
      totalCreated := 0;
      ghost var done: seq<ClassRecord> := [];
      for i := 0 to |classes|
        invariant done == Succeeding(classes[..i], failing)
        invariant totalCreated == |done|
        invariant entries == Regenerated(old(entries), done, enrolled)
      {
        var c := classes[i];
        SucceedingStep(classes, i, failing);
        if c.id !in failing {
          RegeneratedStep(old(entries), done, c, enrolled);
          var _ := CreateFromClass(c, EnrolledIn(enrolled, c.id));
          done := done + [c];
          totalCreated := totalCreated + 1;
        }
      }
      assert classes[..|classes|] == classes;
    }
  }

  function EnrolledIn(enrolled: map<string, seq<string>>, classId: string): seq<string> {
    if classId in enrolled then enrolled[classId] else []
  }

  /** The classes whose regeneration succeeds, in list order. */
  function Succeeding(classes: seq<ClassRecord>, failing: set<string>): (r: seq<ClassRecord>)
    ensures |r| <= |classes|
    ensures forall c :: c in r <==> c in classes && c.id !in failing
  {
    Grouping.Filter(classes, (c: ClassRecord) => c.id !in failing)
  }

  lemma SucceedingStep(classes: seq<ClassRecord>, i: nat, failing: set<string>)
    requires i < |classes|
    ensures classes[i].id !in failing ==> Succeeding(classes[..i + 1], failing) == Succeeding(classes[..i], failing) + [classes[i]]
    ensures classes[i].id in failing ==> Succeeding(classes[..i + 1], failing) == Succeeding(classes[..i], failing)
  {
    assert classes[..i + 1][..i] == classes[..i];
    assert Succeeding(classes[..i], failing) + [] == Succeeding(classes[..i], failing);
  }

  /** The stored entries after regenerating `classes` one after the other. */
  function Regenerated(entries: seq<ScheduleEntry>, classes: seq<ClassRecord>, enrolled: map<string, seq<string>>): seq<ScheduleEntry> {
    if classes == [] then entries
    else
      var c := classes[|classes| - 1];
      WithoutClass(Regenerated(entries, classes[..|classes| - 1], enrolled), c.id) + StoredAll(SchedulesFor(c, EnrolledIn(enrolled, c.id)))
  }

  lemma RegeneratedStep(entries: seq<ScheduleEntry>, done: seq<ClassRecord>, c: ClassRecord, enrolled: map<string, seq<string>>)
    ensures Regenerated(entries, done + [c], enrolled)
            == WithoutClass(Regenerated(entries, done, enrolled), c.id) + StoredAll(SchedulesFor(c, EnrolledIn(enrolled, c.id)))
  {
    assert (done + [c])[..|done|] == done;
  }

  /** Regenerating leaves every entry of a class outside the list where it was. */
  lemma {:induction false} RegeneratedKeepsOthers(entries: seq<ScheduleEntry>, classes: seq<ClassRecord>, enrolled: map<string, seq<string>>, e: ScheduleEntry)
    requires e in entries
    requires forall i :: 0 <= i < |classes| ==> classes[i].id != e.classId
    ensures e in Regenerated(entries, classes, enrolled)
  {
    if classes != [] {
      RegeneratedKeepsOthers(entries, classes[..|classes| - 1], enrolled, e);
    }
  }

  /** Every entry regeneration leaves belongs to a class in the list or was stored before. */
  lemma {:induction false} RegeneratedComesFrom(entries: seq<ScheduleEntry>, classes: seq<ClassRecord>, enrolled: map<string, seq<string>>, e: ScheduleEntry)
    requires e in Regenerated(entries, classes, enrolled)
    ensures e in entries || exists i :: 0 <= i < |classes| && e.classId == classes[i].id
  {
    if classes != [] {
      var init := classes[..|classes| - 1];
      var c := classes[|classes| - 1];
      var kept := WithoutClass(Regenerated(entries, init, enrolled), c.id);
      var written := StoredAll(SchedulesFor(c, EnrolledIn(enrolled, c.id)));
      assert Regenerated(entries, classes, enrolled) == kept + written;
      if e in kept {
        RegeneratedComesFrom(entries, init, enrolled, e);
        if !(e in entries) {
          var i :| 0 <= i < |init| && e.classId == init[i].id;
          assert init[i] == classes[i];
        }
      } else {
        assert e in written;
        StoredForClass(c, EnrolledIn(enrolled, c.id));
        assert e.classId == classes[|classes| - 1].id;
      }
    }
  }

  lemma StoredForClass(c: ClassRecord, students: seq<string>)
    ensures forall e :: e in StoredAll(SchedulesFor(c, students)) ==> e.classId == c.id
  {
    var generated := SchedulesFor(c, students);
    SchedulesForClass(c, students);
    forall e | e in StoredAll(generated) ensures e.classId == c.id {
      var k :| 0 <= k < |generated| && StoredAll(generated)[k] == e;
      assert generated[k] in generated;
    }
  }

  /** Every entry generated for a class names that class. */
  lemma SchedulesForClass(c: ClassRecord, students: seq<string>)
    ensures forall e :: e in SchedulesFor(c, students) ==> e.classId == c.id && e.teacherId == c.teacherId && e.room == RoomOf(c)
  {
    match ParseClassSchedule(c.schedule)
    case None =>
    case Some((days, time)) => ExpansionMembers(c, days, time, students);
  }

  // ----- the teacher schedule order -----

  /** The fallback sort of getSchedulesByTeacher: by the day's position in Monday..Sunday, then by the
      time text. */
  predicate TeacherOrder(a: ScheduleEntry, b: ScheduleEntry) {
    MondayFirst(a.day) < MondayFirst(b.day) || (MondayFirst(a.day) == MondayFirst(b.day) && Sorting.LexLe(a.time, b.time))
  }

  lemma TeacherOrderIsTotalPreorder()
    ensures Sorting.TotalPreorder(TeacherOrder)
  {
    forall a, b ensures TeacherOrder(a, b) || TeacherOrder(b, a) {
      Sorting.LexLeTotal(a.time, b.time);
    }
    forall a, b, c | TeacherOrder(a, b) && TeacherOrder(b, c) ensures TeacherOrder(a, c) {
      if MondayFirst(a.day) == MondayFirst(b.day) == MondayFirst(c.day) {
        Sorting.LexLeTransitive(a.time, b.time, c.time);
      }
    }
  }

  /** The teacher's entries, Monday first and by time within a day, nothing added or lost. */
  function SortForTeacher(entries: seq<ScheduleEntry>): (r: seq<ScheduleEntry>)
    ensures Sorting.SortedBy(r, TeacherOrder)
    ensures multiset(r) == multiset(entries)
  {
    TeacherOrderIsTotalPreorder();
    Sorting.SortBySorted(entries, TeacherOrder);
    Sorting.SortBy(entries, TeacherOrder)
  }
}
