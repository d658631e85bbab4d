/** The student's weekly schedule page of src/pages/student/StudentSchedule.tsx: the student's entries
    sorted by weekday and then by time, and grouped into one card per day. The fetch of the student record
    and of the entries is a parameter; a failed fetch is None. */
module StudentSchedule {
  import opened Wrappers
  import opened Days
  import opened Entities
  import Sorting
  import Grouping
  import DayGroups

  /** The comparator of the page: the weekday difference first, then the times. */
  function DayThenTime(a: ScheduleEntry, b: ScheduleEntry): bool {
    DayNumber(a.day) < DayNumber(b.day) || (DayNumber(a.day) == DayNumber(b.day) && Sorting.LexLe(a.time, b.time))
  }

  lemma DayThenTimeIsTotalPreorder()
    ensures Sorting.TotalPreorder(DayThenTime)
  {
    forall a, b ensures DayThenTime(a, b) || DayThenTime(b, a) {
      Sorting.LexLeTotal(a.time, b.time);
    }
    forall a, b, c | DayThenTime(a, b) && DayThenTime(b, c) ensures DayThenTime(a, c) {
      if DayNumber(a.day) == DayNumber(b.day) == DayNumber(c.day) {
        Sorting.LexLeTransitive(a.time, b.time, c.time);
      }
    }
  }

  /** loadSchedule: nothing without a student record or when loading fails, otherwise the student's
      entries, all of them, sorted. */
  function WeekOf(student: Option<Student>, fetched: Option<seq<ScheduleEntry>>): (r: seq<ScheduleEntry>)
    ensures student.None? || fetched.None? ==> r == []
    ensures student.Some? && fetched.Some? ==> multiset(r) == multiset(fetched.value)
  {
    if student.None? || fetched.None? then [] else Sorting.SortBy(fetched.value, DayThenTime)
  }

  /** The loaded list is in weekday order, and in time order within a day. */
  lemma WeekOrdered(student: Option<Student>, fetched: Option<seq<ScheduleEntry>>)
    ensures Sorting.SortedBy(WeekOf(student, fetched), DayThenTime)
  {
    if student.Some? && fetched.Some? {
      DayThenTimeIsTotalPreorder();
      Sorting.SortBySorted(fetched.value, DayThenTime);
    }
  }

  /** groupedSchedule: the day cards of the loaded list. */
  function GroupedSchedule(schedules: seq<ScheduleEntry>): seq<DayGroups.DayGroup> {
    DayGroups.SortedGroups(schedules)
  }

  /** The cards of a loaded week: the days strictly increasing from Sunday, a card for every day with a
      class, each card holding that day's entries in time order, and every entry shown once. */
  lemma WeekViewShape(student: Student, fetched: seq<ScheduleEntry>)
    ensures var gs := GroupedSchedule(WeekOf(Some(student), Some(fetched)));
      DayGroups.Increasing(gs) && DayGroups.CoversDays(gs, fetched) && DayGroups.SizeSum(gs) == |fetched|
      && forall i :: 0 <= i < |gs| ==>
           multiset(gs[i].entries) == multiset(Grouping.Select(fetched, DayGroups.DayOf, gs[i].day))
           && Sorting.SortedBy(gs[i].entries, DayGroups.TimeLe)
  {
    var week := WeekOf(Some(student), Some(fetched));
    var gs := GroupedSchedule(week);
    DayGroups.SortedGroupsShape(week);
    WeekOrdered(Some(student), Some(fetched));
    Grouping.SameMembers(week, fetched);
    forall e | e in fetched ensures e.day in DayGroups.DaysOf(gs) {
      assert e in week;
    }
    forall i | 0 <= i < |gs|
      ensures multiset(gs[i].entries) == multiset(Grouping.Select(fetched, DayGroups.DayOf, gs[i].day))
      ensures Sorting.SortedBy(gs[i].entries, DayGroups.TimeLe)
    {
      assert gs[i] in gs;
      Grouping.SelectPermutation(week, fetched, DayGroups.DayOf, gs[i].day);
      DayGroups.SelectSorted(week, DayGroups.DayOf, gs[i].day, DayThenTime);
    }
  }
}
