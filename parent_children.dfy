/** The parent's children page of src/pages/parent/ParentChildren.tsx: the grade standing label, the
    12-hour time reader, the next class occurrence, a child's average grade and remaining tuition, and the
    day-grouped weekly schedule. "Now" is given as today's weekday and the milliseconds since midnight. */
module ParentChildren {
  import opened Wrappers
  import opened Days
  import opened Entities
  import Text
  import Sorting
  import Grouping
  import Clock
  import ClassForm
  import GradeRules
  import DayGroups
  import Finance
  import Reporting

  // ----- the standing label -----

  datatype GradeLabel = NoData | Rated(standing: GradeRules.Standing)

  /** gradeStatus: "No Data" without an average, otherwise the 90/80/70 standing. */
  function GradeStatus(average: Option<real>): (status: GradeLabel)
    ensures status == NoData <==> average.None?
    ensures average.Some? ==> status == Rated(GradeRules.StandingOf(average.value))
  {
    if average.None? then NoData else Rated(GradeRules.StandingOf(average.value))
  }

  // ----- reading a 12-hour time -----

  function UpperChar(c: char): char {
    if 'a' <= c <= 'z' then (c as int - 32) as char else c
  }

  /** `(AM|PM)` with the case-insensitive flag: Some(pm) when the two characters are a period. */
  function PeriodWord(p: string): (r: Option<bool>)
    ensures r.Some? ==> |p| == 2 && UpperChar(p[1]) == 'M' && UpperChar(p[0]) == (if r.value then 'P' else 'A')
  {
    if |p| == 2 && UpperChar(p[1]) == 'M' then
      if UpperChar(p[0]) == 'A' then Some(false)
      else if UpperChar(p[0]) == 'P' then Some(true)
      else None
    else None
  }

  /** `\s?(AM|PM)$`: at most one white-space character, then the period, then the end. */
  function TailPeriod(rest: string): Option<bool> {
    if |rest| == 3 && Text.IsSpace(rest[0]) then PeriodWord(rest[1..]) else PeriodWord(rest)
  }

  /** The anchored match with an hour of `n` digits. */
  function MatchWithHour(t: string, n: nat): (r: Option<ClassForm.TimeMatch>)
    requires 1 <= n <= 2
    ensures r.Some? ==> ClassForm.WellFormed(r.value) && |r.value.hours| == n
  {
    if |t| >= n + 3 && Text.AllDigits(t[..n]) && t[n] == ':' && Text.AllDigits(t[n + 1..n + 3]) then
      match TailPeriod(t[n + 3..])
      case None => None
      case Some(pm) => Some(ClassForm.TimeMatch(t[..n], t[n + 1..n + 3], pm))
    else None
  }

  /** `/^(\d{1,2}):(\d{2})\s?(AM|PM)$/i`: the colon sits after the first or the second character, never
      both, so at most one hour width can match. */
  function MatchClock(t: string): (r: Option<ClassForm.TimeMatch>)
    ensures r.Some? ==> ClassForm.WellFormed(r.value)
  {
    if MatchWithHour(t, 1).Some? then MatchWithHour(t, 1) else MatchWithHour(t, 2)
  }

  datatype ClockTime = ClockTime(hours: nat, minutes: nat)

  /** parseTime: midnight when the text does not match; otherwise the hour moved to the 24-hour clock
      (PM adds twelve except to 12, 12 AM is 0) and the minutes. */
  function ParseTime(t: string): (r: ClockTime)
    ensures MatchClock(t).None? ==> r == ClockTime(0, 0)
    ensures MatchClock(t).Some? ==> r.minutes < 100
    ensures MatchClock(t).Some? && 1 <= Text.DigitsValue(MatchClock(t).value.hours) <= 12 ==>
      r.hours < 24 && (r.hours >= 12 <==> MatchClock(t).value.pm)
    ensures MatchClock(t).Some? ==>
      var m := MatchClock(t).value;
      r.minutes == Text.DigitsValue(m.minutes) && r.hours == Clock.Hour24(Text.DigitsValue(m.hours), m.pm)
  {
    match MatchClock(t)
    case None => ClockTime(0, 0)
    case Some(m) =>
      assert Text.DigitsValue(m.minutes) < 100 by {
        Text.TwoDigitsValue(m.minutes);
      }
      ClockTime(Clock.Hour24(Text.DigitsValue(m.hours), m.pm), Text.DigitsValue(m.minutes))
  }

  /** A time the class editor saved reads back as the time that was picked. */
  lemma ParseTimeReadsSavedTime(time24: string)
    requires ClassForm.IsTime24(time24)
    ensures ParseTime(ClassForm.ConvertTo12Hour(time24))
         == ClockTime(Text.DigitsValue(time24[..2]), Text.DigitsValue(time24[3..]))
  {
    var hour24 := Text.DigitsValue(time24[..2]);
    var h12 := Clock.Hour12(hour24);
    var pm := Clock.IsPm(hour24);
    Text.NatToStringShort(h12);
    Text.NatToStringValue(h12);
    Clock.HourRoundTrip(hour24);
    ShownTimeMatches(Text.NatToString(h12), time24[3..], pm);
    assert ClassForm.ConvertTo12Hour(time24)
        == Text.NatToString(h12) + ":" + time24[3..] + " " + ClassForm.PeriodText(pm);
  }

  /** The text the editor shows matches the pattern with exactly its hour, minutes and period. */
  lemma ShownTimeMatches(hs: string, mm: string, pm: bool)
    requires 1 <= |hs| <= 2 && Text.AllDigits(hs) && |mm| == 2 && Text.AllDigits(mm)
    ensures MatchClock(hs + ":" + mm + " " + ClassForm.PeriodText(pm)) == Some(ClassForm.TimeMatch(hs, mm, pm))
  {
    var s := hs + ":" + mm + " " + ClassForm.PeriodText(pm);
    var n := |hs|;
    assert s[..n] == hs && s[n] == ':' && s[n + 1..n + 3] == mm && s[n + 3..] == " " + ClassForm.PeriodText(pm);
    assert TailPeriod(s[n + 3..]) == Some(pm);
    assert MatchWithHour(s, n) == Some(ClassForm.TimeMatch(hs, mm, pm));
    if n == 2 {
      assert Text.IsDigit(s[1]);
      assert MatchWithHour(s, 1).None?;
    }
  }

  // ----- the next class -----

  const DayMs: nat := 86400000

  /** `setHours(hours, minutes, 0, 0)` from midnight, rolling over past the day like Date does. */
  function SlotMs(t: ClockTime): nat {
    t.hours * 3600000 + t.minutes * 60000
  }

  /** The day offset `(dayIndex - now.getDay() + 7) % 7`: the entry's weekday is that many days ahead. */
  function DayOffset(day: Weekday, today: Weekday): (d: nat)
    ensures d < 7 && (DayNumber(today) + d) % 7 == DayNumber(day)
  {
    (DayNumber(day) - DayNumber(today) + 7) % 7
  }

  /** Whole days from today to the next occurrence: the offset, or a full week when the slot is today
      and not after now. */
  function DaysAhead(d: nat, slot: nat, nowMs: nat): nat {
    if d == 0 && slot <= nowMs then 7 else d
  }

  /** The next occurrence, `d` days ahead at `slot`, in milliseconds from today's midnight. */
  function NextAt(d: nat, slot: nat, nowMs: nat): (at: int)
    requires d < 7 && nowMs < DayMs
    ensures at > nowMs
    ensures at == slot + DaysAhead(d, slot, nowMs) * 86400000
  {
    var at := d * 86400000 + slot;
    if d == 0 && at <= nowMs then at + 7 * 86400000 else at
  }

  /** The next occurrence of a weekly slot on `day` at `time`: after now, a whole number of days ahead
      on that weekday, at that time. */
  function NextOccurrence(day: Weekday, time: ClockTime, today: Weekday, nowMs: nat): (at: int)
    requires nowMs < DayMs
    ensures at > nowMs
    ensures var w := DaysAhead(DayOffset(day, today), SlotMs(time), nowMs);
      at == SlotMs(time) + w * 86400000 && w <= 7 && (DayNumber(today) + w) % 7 == DayNumber(day)
  {
    SameResidue(DayNumber(today), 7, 0);
    NextAt(DayOffset(day, today), SlotMs(time), nowMs)
  }

  /** No later day on the slot's weekday with the slot after now comes sooner: the occurrence is the
      next one. */
  lemma NextOccurrenceIsNext(day: Weekday, time: ClockTime, today: Weekday, nowMs: nat, w: nat)
    requires nowMs < DayMs
    requires (DayNumber(today) + w) % 7 == DayNumber(day)
    requires SlotMs(time) + w * 86400000 > nowMs
    ensures NextOccurrence(day, time, today, nowMs) <= SlotMs(time) + w * 86400000
  {
    LeastDays(DayNumber(today), DayOffset(day, today), SlotMs(time), nowMs, w);
  }

  /** The day count arithmetic behind NextOccurrenceIsNext, for a weekday number `t`, an offset `d`
      and a slot. */
  lemma LeastDays(t: nat, d: nat, slot: nat, nowMs: nat, w: nat)
    requires t < 7 && d < 7 && (t + w) % 7 == (t + d) % 7 && nowMs < DayMs
    requires slot + w * 86400000 > nowMs
    ensures NextAt(d, slot, nowMs) <= slot + w * 86400000
  {
    SameResidue(t, w, d);
    var k := DaysAhead(d, slot, nowMs);
    if d == 0 && slot <= nowMs {
      assert w != 0;
    }
    assert k <= w;
    assert k * 86400000 <= w * 86400000 by {
      assert (w - k) * 86400000 >= 0;
    }
  }

  /** Two day counts landing on the same weekday from the same day agree modulo a week. */
  lemma SameResidue(t: nat, w: nat, d: nat)
    requires t < 7 && d < 7 && (t + w) % 7 == (t + d) % 7
    ensures w % 7 == d
  {
    var q := (t + w) / 7;
    var r := (t + w) % 7;
    assert t + w == 7 * q + r;
    if r >= t {
      assert w == 7 * q + (r - t);
    } else {
      assert w == 7 * (q - 1) + (r - t + 7);
    }
  }

  datatype Upcoming = Upcoming(entry: ScheduleEntry, at: int)

  function Occurrences(entries: seq<ScheduleEntry>, today: Weekday, nowMs: nat): (r: seq<Upcoming>)
    requires nowMs < DayMs
    ensures |r| == |entries|
    ensures forall i :: 0 <= i < |r| ==> r[i] == Upcoming(entries[i], NextOccurrence(entries[i].day, ParseTime(entries[i].time), today, nowMs))
  {
    seq(|entries|, i requires 0 <= i < |entries| => Upcoming(entries[i], NextOccurrence(entries[i].day, ParseTime(entries[i].time), today, nowMs)))
  }

  function NoLater(a: Upcoming, b: Upcoming): bool {
    a.at <= b.at
  }

  /** computeNextClassLabel's choice: the occurrences sorted by time, the first one taken; nothing for
      an empty list. */
  function NextClass(entries: seq<ScheduleEntry>, today: Weekday, nowMs: nat): (r: Option<Upcoming>)
    requires nowMs < DayMs
    ensures r.None? <==> entries == []
  {
    var sorted := Sorting.SortBy(Occurrences(entries, today, nowMs), NoLater);
    if sorted == [] then None else Some(sorted[0])
  }

  /** The chosen class is one of the entries, lies after now, and no entry occurs earlier. */
  lemma NextClassEarliest(entries: seq<ScheduleEntry>, today: Weekday, nowMs: nat)
    requires nowMs < DayMs && entries != []
    ensures var r := NextClass(entries, today, nowMs).value;
      r.entry in entries && r.at == NextOccurrence(r.entry.day, ParseTime(r.entry.time), today, nowMs) && r.at > nowMs
      && forall e :: e in entries ==> r.at <= NextOccurrence(e.day, ParseTime(e.time), today, nowMs)
  {
    var occs := Occurrences(entries, today, nowMs);
    EarliestFirst(occs);
    var r := Sorting.SortBy(occs, NoLater)[0];
    forall e | e in entries ensures r.at <= NextOccurrence(e.day, ParseTime(e.time), today, nowMs) {
      var i :| 0 <= i < |entries| && entries[i] == e;
      assert occs[i] in occs;
    }
  }

  /** Sorting occurrences by time puts one of them first that no other precedes. */
  lemma EarliestFirst(occs: seq<Upcoming>)
    requires occs != []
    ensures var sorted := Sorting.SortBy(occs, NoLater);
      sorted != [] && sorted[0] in occs && forall o :: o in occs ==> sorted[0].at <= o.at
  {
    var sorted := Sorting.SortBy(occs, NoLater);
    assert Sorting.TotalPreorder(NoLater);
    Sorting.SortBySorted(occs, NoLater);
    Grouping.SameMembers(sorted, occs);
    forall o | o in occs ensures sorted[0].at <= o.at {
      var k :| 0 <= k < |sorted| && sorted[k] == o;
      if k > 0 {
        assert NoLater(sorted[0], sorted[k]);
      }
    }
  }

  // ----- tuition -----

  datatype ChildFinancial = ChildFinancial(
    totalTuition: real, totalPaid: real, monthlyInstallment: real, installmentCount: int, remaining: real)

  /** The child's tuition card, when the child has an account: the account's figures and what is left
      to pay, never below zero. */
  function FinancialCard(account: Option<Finance.Account>): (card: Option<ChildFinancial>)
    ensures card.Some? <==> account.Some?
    ensures card.Some? ==>
      card.value.totalTuition == account.value.totalTuition && card.value.totalPaid == account.value.totalPaid
      && card.value.monthlyInstallment == account.value.monthlyInstallment
      && card.value.installmentCount == account.value.installmentCount
    ensures card.Some? ==> card.value.remaining >= 0.0 && card.value.remaining >= card.value.totalTuition - card.value.totalPaid
    ensures card.Some? && card.value.totalPaid <= card.value.totalTuition ==>
      card.value.remaining == card.value.totalTuition - card.value.totalPaid
    ensures card.Some? && card.value.totalPaid >= card.value.totalTuition ==> card.value.remaining == 0.0
  {
    match account
    case None => None
    case Some(a) =>
      Some(ChildFinancial(a.totalTuition, a.totalPaid, a.monthlyInstallment, a.installmentCount, Reporting.RemainingOf(a)))
  }

  // ----- the weekly schedule dialog -----

  function ByTime(g: DayGroups.DayGroup): DayGroups.DayGroup {
    DayGroups.DayGroup(g.day, Sorting.SortBy(g.entries, DayGroups.TimeLe))
  }

  /** scheduleGrouped: the day groups in Sunday-to-Saturday order, each group's entries sorted by time. */
  function ScheduleGrouped(entries: seq<ScheduleEntry>): (r: seq<DayGroups.DayGroup>)
    ensures |r| == |DayGroups.SortedGroups(entries)|
    ensures forall i :: 0 <= i < |r| ==> r[i] == ByTime(DayGroups.SortedGroups(entries)[i])
  {
    if entries == [] then
      assert |DayGroups.SortedGroups(entries)| == |Grouping.KeysInOrder(entries, DayGroups.DayOf)| == 0;
      []
    else
      var gs := DayGroups.SortedGroups(entries);
      seq(|gs|, i requires 0 <= i < |gs| => ByTime(gs[i]))
  }

  lemma {:induction false} ByTimeKeepsSizes(gs: seq<DayGroups.DayGroup>, r: seq<DayGroups.DayGroup>)
    requires |r| == |gs| && forall i :: 0 <= i < |gs| ==> r[i] == ByTime(gs[i])
    ensures DayGroups.SizeSum(r) == DayGroups.SizeSum(gs)
  {
    if gs != [] {
      ByTimeKeepsSizes(gs[1..], r[1..]);
    }
  }

  /** One group per day with entries, days strictly increasing from Sunday, each group holding that
      day's entries rearranged into time order, and every entry shown once. */
  lemma ScheduleGroupedShape(entries: seq<ScheduleEntry>)
    ensures var r := ScheduleGrouped(entries);
      DayGroups.Increasing(r) && DayGroups.CoversDays(r, entries) && DayGroups.SizeSum(r) == |entries|
      && forall i :: 0 <= i < |r| ==>
           multiset(r[i].entries) == multiset(Grouping.Select(entries, DayGroups.DayOf, r[i].day))
           && Sorting.SortedBy(r[i].entries, DayGroups.TimeLe)
  {
    var gs := DayGroups.SortedGroups(entries);
    var r := ScheduleGrouped(entries);
    DayGroups.SortedGroupsShape(entries);
    DayGroups.TimeLeIsTotalPreorder();
    assert DayGroups.DaysOf(r) == DayGroups.DaysOf(gs);
    ByTimeKeepsSizes(gs, r);
    forall i | 0 <= i < |r|
      ensures multiset(r[i].entries) == multiset(Grouping.Select(entries, DayGroups.DayOf, r[i].day))
      ensures Sorting.SortedBy(r[i].entries, DayGroups.TimeLe)
    {
      assert gs[i] in gs;
      Sorting.SortBySorted(gs[i].entries, DayGroups.TimeLe);
    }
  }
}
