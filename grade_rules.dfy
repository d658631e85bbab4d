/** The grade rules several pages share: the 90/80/70 standing thresholds, a grade's percentage with
    its score fallback, and the mean of the percentages that are known. */
module GradeRules {
  import opened Wrappers
  import opened Entities

  datatype Standing = Excellent | Good | AverageStanding | NeedsImprovement

  /** 90 and above is Excellent, 80 Good, 70 Average, anything lower Needs Improvement. */
  function StandingOf(average: real): (s: Standing)
    ensures s == Excellent <==> average >= 90.0
    ensures s == Good <==> 80.0 <= average < 90.0
    ensures s == AverageStanding <==> 70.0 <= average < 80.0
    ensures s == NeedsImprovement <==> average < 70.0
  {
    if average >= 90.0 then Excellent
    else if average >= 80.0 then Good
    else if average >= 70.0 then AverageStanding
    else NeedsImprovement
  }

  function Rank(s: Standing): nat {
    match s
    case NeedsImprovement => 0
    case AverageStanding => 1
    case Good => 2
    case Excellent => 3
  }

  /** A higher average never gets a lower standing. */
  lemma StandingMonotone(a: real, b: real)
    requires a <= b
    ensures Rank(StandingOf(a)) <= Rank(StandingOf(b))
  {
  }

  /** `grade.percentage ?? (grade.maxScore ? grade.score / grade.maxScore * 100 : undefined)`. */
  function PercentageOf(g: Grade): (p: Option<real>)
    ensures g.percentage.Some? ==> p == g.percentage
    ensures g.percentage.None? ==> (p.Some? <==> g.maxScore != 0.0)
    ensures g.percentage.None? && g.maxScore > 0.0 && 0.0 <= g.score <= g.maxScore ==> 0.0 <= p.value <= 100.0
  {
    if g.percentage.Some? then g.percentage
    else if g.maxScore != 0.0 then Some(g.score / g.maxScore * 100.0)
    else None
  }

  /** The known values of a list, in order (`.filter(v => v !== undefined)`). */
  function Known(xs: seq<Option<real>>): (r: seq<real>)
    ensures |r| <= |xs|
    ensures forall v :: v in r <==> Some(v) in xs
  {
    if xs == [] then []
    else
      var init := xs[..|xs| - 1];
      var last := xs[|xs| - 1];
      assert xs == init + [last];
      Known(init) + (if last.Some? then [last.value] else [])
  }

  /** The sum as `reduce((sum, v) => sum + v, 0)` adds it. */
  function Sum(xs: seq<real>): real {
    if xs == [] then 0.0 else Sum(xs[..|xs| - 1]) + xs[|xs| - 1]
  }

  /** The mean, or None for an empty list. */
  function Mean(xs: seq<real>): (m: Option<real>)
    ensures m.None? <==> xs == []
  {
    if xs == [] then None else Some(Sum(xs) / |xs| as real)
  }

  /** The mean of the percentages that can be worked out, none without any: the average the grade pages show. */
  function AveragePercentage(grades: seq<Grade>): (avg: Option<real>)
    ensures avg.None? <==> forall g :: g in grades ==> PercentageOf(g).None?
  {
    var ps := seq(|grades|, i requires 0 <= i < |grades| => PercentageOf(grades[i]));
    var known := Known(ps);
    assert known == [] <==> forall g :: g in grades ==> PercentageOf(g).None? by {
      if known != [] {
        assert Some(known[0]) in ps;
      }
      forall g | g in grades && PercentageOf(g).Some? ensures known != [] {
        var i :| 0 <= i < |grades| && grades[i] == g;
        assert ps[i] == Some(PercentageOf(g).value);
      }
    }
    Mean(known)
  }

  /** Percentages in 0..100 give an average in 0..100. */
  lemma AveragePercentageBounds(grades: seq<Grade>)
    requires forall g :: g in grades && PercentageOf(g).Some? ==> 0.0 <= PercentageOf(g).value <= 100.0
    requires AveragePercentage(grades).Some?
    ensures 0.0 <= AveragePercentage(grades).value <= 100.0
  {
    var ps := seq(|grades|, i requires 0 <= i < |grades| => PercentageOf(grades[i]));
    var known := Known(ps);
    forall i | 0 <= i < |known| ensures 0.0 <= known[i] <= 100.0 {
      assert Some(known[i]) in ps;
      var j :| 0 <= j < |ps| && ps[j] == Some(known[i]);
      assert grades[j] in grades;
    }
    MeanBounds(known, 0.0, 100.0);
  }

  lemma {:induction false} SumBounds(xs: seq<real>, lo: real, hi: real)
    requires forall i :: 0 <= i < |xs| ==> lo <= xs[i] <= hi
    ensures |xs| as real * lo <= Sum(xs) <= |xs| as real * hi
  {
    if xs != [] {
      SumBounds(xs[..|xs| - 1], lo, hi);
    }
  }

  /** The mean lies between any bounds of the values: a mean of percentages in 0..100 is in 0..100. */
  lemma MeanBounds(xs: seq<real>, lo: real, hi: real)
    requires xs != []
    requires forall i :: 0 <= i < |xs| ==> lo <= xs[i] <= hi
    ensures lo <= Mean(xs).value <= hi
  {
    SumBounds(xs, lo, hi);
    var n := |xs| as real;
    DivideBounds(Sum(xs), n, lo, hi);
  }

  lemma DivideBounds(s: real, n: real, lo: real, hi: real)
    requires n > 0.0 && n * lo <= s <= n * hi
    ensures lo <= s / n <= hi
  {
    assert s / n * n == s;
  }
}
