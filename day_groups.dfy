/** Weekly entries grouped by day, as the schedule views of src/pages/student/StudentSchedule.tsx and
    src/pages/parent/ParentChildren.tsx build them: a map from day to entries filled in list order, its
    entries taken in first-seen order, then sorted Sunday to Saturday. */
module DayGroups {
  import opened Days
  import opened Entities
  import Sorting
  import Grouping

  function DayOf(e: ScheduleEntry): Weekday {
    e.day
  }

  datatype DayGroup = DayGroup(day: Weekday, entries: seq<ScheduleEntry>)

  /** What the `map.get(day) || []`, push, `map.set` loop leaves: the days in the order they were first
      seen, and for each of them its entries in list order. */
  predicate Bucketed(order: seq<Weekday>, byDay: map<Weekday, seq<ScheduleEntry>>, entries: seq<ScheduleEntry>) {
    order == Grouping.KeysInOrder(entries, DayOf)
    && (forall d :: d in byDay <==> d in order)
    && forall d :: d in byDay ==> byDay[d] == Grouping.Select(entries, DayOf, d)
  }

  method BucketByDay(entries: seq<ScheduleEntry>) returns (order: seq<Weekday>, byDay: map<Weekday, seq<ScheduleEntry>>)
    ensures Bucketed(order, byDay, entries)
  {
    order := [];
    byDay := map[];
    for i := 0 to |entries|
      invariant Bucketed(order, byDay, entries[..i])
    {
      var e := entries[i];
      var prefix := entries[..i];
      assert entries[..i + 1] == prefix + [e];
      assert (prefix + [e])[..|prefix|] == prefix;
      forall d ensures Grouping.Select(prefix + [e], DayOf, d) == Grouping.Select(prefix, DayOf, d) + (if e.day == d then [e] else []) {
        Grouping.SelectSnoc(prefix, e, DayOf, d);
      }
      if e.day !in byDay {
        assert forall j :: 0 <= j < |prefix| ==> prefix[j].day != e.day;
        Grouping.SelectAbsent(prefix, DayOf, e.day);
        order := order + [e.day];
        byDay := byDay[e.day := [e]];
      } else {
        byDay := byDay[e.day := byDay[e.day] + [e]];
      }
    }
    assert entries[..|entries|] == entries;
  }

  /** `Array.from(map.entries())`: one group per day, in the order the days were first seen. */
  function Groups(entries: seq<ScheduleEntry>): (gs: seq<DayGroup>)
    ensures |gs| == |Grouping.KeysInOrder(entries, DayOf)|
  {
    var days := Grouping.KeysInOrder(entries, DayOf);
    seq(|days|, i requires 0 <= i < |days| => DayGroup(days[i], Grouping.Select(entries, DayOf, days[i])))
  }

  /** The groups the buckets give are exactly Groups. */
  lemma BucketsAreGroups(order: seq<Weekday>, byDay: map<Weekday, seq<ScheduleEntry>>, entries: seq<ScheduleEntry>)
    requires Bucketed(order, byDay, entries)
    ensures seq(|order|, i requires 0 <= i < |order| => DayGroup(order[i], byDay[order[i]])) == Groups(entries)
  {
  }

  /** Sunday-first order of the groups' days. */
  function GroupLe(a: DayGroup, b: DayGroup): bool {
    DayNumber(a.day) <= DayNumber(b.day)
  }

  lemma GroupLeIsTotalPreorder()
    ensures Sorting.TotalPreorder(GroupLe)
  {
  }

  /** `a.time.localeCompare(b.time)`, as the code-unit order of the time texts. */
  function TimeLe(a: ScheduleEntry, b: ScheduleEntry): bool {
    Sorting.LexLe(a.time, b.time)
  }

  lemma TimeLeIsTotalPreorder()
    ensures Sorting.TotalPreorder(TimeLe)
  {
    forall a, b ensures TimeLe(a, b) || TimeLe(b, a) {
      Sorting.LexLeTotal(a.time, b.time);
    }
    forall a, b, c | TimeLe(a, b) && TimeLe(b, c) ensures TimeLe(a, c) {
      Sorting.LexLeTransitive(a.time, b.time, c.time);
    }
  }

  /** The groups sorted Sunday to Saturday. */
  function SortedGroups(entries: seq<ScheduleEntry>): seq<DayGroup> {
    Sorting.SortBy(Groups(entries), GroupLe)
  }

  /** The number of entries a list of groups holds. */
  function SizeSum(gs: seq<DayGroup>): nat {
    if gs == [] then 0 else |gs[0].entries| + SizeSum(gs[1..])
  }

  function DaysOf(gs: seq<DayGroup>): (days: seq<Weekday>)
    ensures |days| == |gs|
    ensures forall i :: 0 <= i < |gs| ==> days[i] == gs[i].day
  {
    seq(|gs|, i requires 0 <= i < |gs| => gs[i].day)
  }

  /** Groups holding their day's bucket hold as many entries as the buckets of their days. */
  lemma {:induction false} SizeSumIsTotalSize(gs: seq<DayGroup>, entries: seq<ScheduleEntry>)
    requires forall g :: g in gs ==> g.entries == Grouping.Select(entries, DayOf, g.day)
    ensures SizeSum(gs) == Grouping.TotalSize(entries, DayOf, DaysOf(gs))
  {
    if gs != [] {
      SizeSumIsTotalSize(gs[1..], entries);
      assert DaysOf(gs)[1..] == DaysOf(gs[1..]);
    }
  }

  /** Every group holds exactly its day's entries, and at least one. */
  predicate HoldsBuckets(gs: seq<DayGroup>, entries: seq<ScheduleEntry>) {
    forall g :: g in gs ==> g.entries == Grouping.Select(entries, DayOf, g.day) && g.entries != []
  }

  /** Every entry's day has a group. */
  predicate CoversDays(gs: seq<DayGroup>, entries: seq<ScheduleEntry>) {
    forall e :: e in entries ==> e.day in DaysOf(gs)
  }

  /** The days strictly increase, Sunday first. */
  predicate Increasing(gs: seq<DayGroup>) {
    forall i, j :: 0 <= i < j < |gs| ==> DayNumber(gs[i].day) < DayNumber(gs[j].day)
  }

  lemma GroupsShape(entries: seq<ScheduleEntry>)
    ensures HoldsBuckets(Groups(entries), entries) && CoversDays(Groups(entries), entries)
    ensures Grouping.Distinct(DaysOf(Groups(entries)))
  {
    var gs := Groups(entries);
    var keys := Grouping.KeysInOrder(entries, DayOf);
    assert DaysOf(gs) == keys;
    forall g | g in gs ensures g.entries == Grouping.Select(entries, DayOf, g.day) && g.entries != [] {
      var k :| 0 <= k < |gs| && gs[k] == g;
      assert keys[k] in keys;
      var i :| 0 <= i < |entries| && DayOf(entries[i]) == keys[k];
      assert entries[i] in Grouping.Select(entries, DayOf, keys[k]);
    }
    forall e | e in entries ensures e.day in keys {
      var i :| 0 <= i < |entries| && entries[i] == e;
    }
  }

  /** Rearranging groups that hold their buckets under distinct days keeps all three facts. */
  lemma PermutedGroups(a: seq<DayGroup>, b: seq<DayGroup>, entries: seq<ScheduleEntry>)
    requires multiset(a) == multiset(b)
    requires HoldsBuckets(a, entries) && CoversDays(a, entries) && Grouping.Distinct(DaysOf(a))
    ensures HoldsBuckets(b, entries) && CoversDays(b, entries) && Grouping.Distinct(DaysOf(b))
  {
    Grouping.SameMembers(a, b);
    assert Grouping.Distinct(a) by {
      forall i, j | 0 <= i < j < |a| ensures a[i] != a[j] {
        assert DaysOf(a)[i] != DaysOf(a)[j];
      }
    }
    Grouping.DistinctPermutation(a, b);
    forall e | e in entries ensures e.day in DaysOf(b) {
      var m :| 0 <= m < |a| && a[m].day == e.day;
      assert a[m] in b;
      var n :| 0 <= n < |b| && b[n] == a[m];
      assert DaysOf(b)[n] == e.day;
    }
    forall i, j | 0 <= i < j < |b| ensures DaysOf(b)[i] != DaysOf(b)[j] {
      assert b[i] in a && b[j] in a;
      assert b[i] != b[j];
    }
  }

  /** Sorted groups under distinct days have strictly increasing days. */
  lemma SortedDistinctIncreasing(gs: seq<DayGroup>)
    requires Sorting.SortedBy(gs, GroupLe) && Grouping.Distinct(DaysOf(gs))
    ensures Increasing(gs)
  {
    forall i, j | 0 <= i < j < |gs| ensures DayNumber(gs[i].day) < DayNumber(gs[j].day) {
      assert DaysOf(gs)[i] != DaysOf(gs)[j];
      DaysDiffer(gs[i].day, gs[j].day);
    }
  }

  /** Groups holding their buckets under distinct days covering every entry hold every entry once. */
  lemma GroupSizes(gs: seq<DayGroup>, entries: seq<ScheduleEntry>)
    requires HoldsBuckets(gs, entries) && CoversDays(gs, entries) && Grouping.Distinct(DaysOf(gs))
    ensures SizeSum(gs) == |entries|
  {
    SizeSumIsTotalSize(gs, entries);
    forall i | 0 <= i < |entries| ensures DayOf(entries[i]) in DaysOf(gs) {
      assert entries[i] in entries;
    }
    Grouping.GroupSizesSum(entries, DayOf, DaysOf(gs));
  }

  /** The grouped view: one group per day that has entries, in strictly increasing Sunday-first order,
      each holding exactly that day's entries in list order, and no entry lost. */
  lemma SortedGroupsShape(entries: seq<ScheduleEntry>)
    ensures var gs := SortedGroups(entries);
      Increasing(gs) && HoldsBuckets(gs, entries) && CoversDays(gs, entries) && SizeSum(gs) == |entries|
  {
    var unsorted := Groups(entries);
    var gs := SortedGroups(entries);
    GroupsShape(entries);
    GroupLeIsTotalPreorder();
    Sorting.SortBySorted(unsorted, GroupLe);
    PermutedGroups(unsorted, gs, entries);
    SortedDistinctIncreasing(gs);
    GroupSizes(gs, entries);
  }

  /** Different days have different numbers. */
  lemma DaysDiffer(a: Weekday, b: Weekday)
    ensures a != b <==> DayNumber(a) != DayNumber(b)
  {
    if a != b {
      assert FromDayNumber(DayNumber(a)) == a by {
        assert DayNumber(FromDayNumber(DayNumber(a))) == DayNumber(a);
      }
    }
  }

  /** Filtering a sorted list keeps it sorted. */
  lemma {:induction false} SelectSorted<T(!new), K>(xs: seq<T>, key: T -> K, k: K, le: (T, T) -> bool)
    requires Sorting.SortedBy(xs, le)
    ensures Sorting.SortedBy(Grouping.Select(xs, key, k), le)
  {
    if xs != [] {
      var init := xs[..|xs| - 1];
      var last := xs[|xs| - 1];
      assert xs == init + [last];
      assert Sorting.SortedBy(init, le) by {
        forall i, j | 0 <= i < j < |init| ensures le(init[i], init[j]) {
          assert init[i] == xs[i] && init[j] == xs[j];
        }
      }
      SelectSorted(init, key, k, le);
      var before := Grouping.Select(init, key, k);
      forall x | x in before ensures le(x, last) {
        var i :| 0 <= i < |init| && init[i] == x;
        assert xs[i] == x;
      }
    }
  }
}
