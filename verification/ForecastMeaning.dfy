/** What a forecast says of the samples it was made from. */
module ForecastMeaning {
  import opened Wrappers
  import opened ClockTimes
  import opened CapacityForecast

  /** A usage was measured, and a capacity that is not zero. */
  ghost predicate IsMeasured(s: Sample) {
    s.used != None && s.capacity != None && s.capacity != Some(0)
  }

  ghost predicate IsLast(x: Sample, samples: seq<Sample>) {
    x in samples && IsMeasured(x) && forall y :: y in samples && IsMeasured(y) ==> y.at <= x.at
  }

  ghost predicate OfOneDay(x: Sample, y: Sample) {
    x.at / 86_400_000_000 == y.at / 86_400_000_000
  }

  ghost predicate IsLastOfItsDay(x: Sample, samples: seq<Sample>) {
    x in samples && IsMeasured(x) && forall y :: y in samples && IsMeasured(y) && OfOneDay(x, y) ==> y.at <= x.at
  }

  lemma {:induction false} SortedMembers(samples: seq<Sample>, x: Sample)
    ensures x in InOrder(samples) <==> x in samples && IsMeasured(x)
  {
    InOrderIsSorted(samples);
    UsableCount(samples, x);
    assert x in InOrder(samples) <==> multiset(InOrder(samples))[x] > 0;
    assert x in samples <==> multiset(samples)[x] > 0;
    assert Usable(x) <==> IsMeasured(x);
  }

  // ---------- The daily points ----------

  ghost predicate IsLastOn(s: seq<Sample>, since: int, d: int, i: nat) {
    && i < |s| && since <= s[i].at && DayOf(s[i].at) == d
    && forall j :: 0 <= j < |s| && DayOf(s[j].at) == d ==> s[j].at <= s[i].at
  }

  ghost predicate IsReadOff(s: seq<Sample>, since: int, d: int, p: Point)
    requires AllUsable(s)
  {
    exists i: nat :: IsLastOn(s, since, d, i) && p == Reading(s[i])
  }

  lemma {:induction false} LastOnIs(s: seq<Sample>, since: int, d: int, p: Point)
    requires Ascending(s) && AllUsable(s) && NoTies(s)
    ensures LastOn(s, since, d) == Some(p) <==> IsReadOff(s, since, d, p)
  {
    if s != [] {
      var n := |s| - 1;
      FrontIsSorted(s);
      LastOnIs(s[..n], since, d, p);
      if since <= s[n].at && DayOf(s[n].at) == d {
        assert IsLastOn(s, since, d, n);
        forall i: nat | IsLastOn(s, since, d, i) ensures s[i] == s[n] { assert s[n].at <= s[i].at; }
      } else {
        ReadOffFront(s, n, s[..n], since, d, p);
      }
    }
  }

  /** A last sample of another day, or before the window, plays no part. */
  lemma {:induction false} ReadOffFront(s: seq<Sample>, n: nat, front: seq<Sample>, since: int, d: int, p: Point)
    requires Ascending(s) && AllUsable(s) && AllUsable(front) && |s| == n + 1 && front == s[..n]
    requires !(since <= s[n].at && DayOf(s[n].at) == d)
    ensures IsReadOff(s, since, d, p) <==> IsReadOff(front, since, d, p)
  {
    assert forall i: nat :: i < n ==> front[i] == s[i] && s[i].at <= s[n].at;
    forall i: nat ensures IsLastOn(s, since, d, i) <==> IsLastOn(front, since, d, i) {
      SameLastOn(s, n, front, since, d, i);
    }
  }

  lemma {:induction false} SameLastOn(s: seq<Sample>, n: nat, front: seq<Sample>, since: int, d: int, i: nat)
    requires Ascending(s) && |s| == n + 1 && front == s[..n] && !(since <= s[n].at && DayOf(s[n].at) == d)
    ensures IsLastOn(s, since, d, i) <==> IsLastOn(front, since, d, i)
  {
    assert forall j :: 0 <= j < n ==> front[j] == s[j] && s[j].at <= s[n].at;
  }

  /** The points of the window; none without a usable sample. */
  ghost function DailyPointsOf(samples: seq<Sample>): seq<Point> {
    InOrderIsSorted(samples);
    if InOrder(samples) == [] then [] else WindowOf(InOrder(samples))
  }

  lemma {:induction false} LastInOrder(samples: seq<Sample>, last: Sample)
    requires NoTies(samples) && IsLast(last, samples)
    ensures InOrder(samples) != [] && InOrder(samples)[|InOrder(samples)| - 1] == last
  {
    var s := InOrder(samples);
    InOrderIsSorted(samples);
    SortedMembers(samples, last);
    var i :| 0 <= i < |s| && s[i] == last;
    SortedMembers(samples, s[|s| - 1]);
    SortedKeepsNoTies(samples);
    assert s[i].at <= s[|s| - 1].at <= last.at;
  }

  /** The points are the last readings of the days of the 30 days up to the last one. */
  lemma {:induction false} PointIsLastOfDay(samples: seq<Sample>, last: Sample, p: Point)
    requires NoTies(samples) && IsLast(last, samples)
    ensures p in DailyPointsOf(samples)
       <==> exists x :: && IsLastOfItsDay(x, samples) && x.at == p.at && x.used == Some(p.used)
                        && last.at - 30 * 24 * 3600 * 1_000_000 <= x.at
  {
    var s, since := InOrder(samples), last.at - 2_592_000_000_000;
    InOrderIsSorted(samples);
    LastInOrder(samples, last);
    SortedKeepsNoTies(samples);
    PointsAreDaily(s, since);
    LastOnIs(s, since, DayOf(p.at), p);
    if i: nat :| IsLastOn(s, since, DayOf(p.at), i) && p == Reading(s[i]) {
      LastOnIsLastOfDay(samples, since, DayOf(p.at), i);
    }
    if x :| IsLastOfItsDay(x, samples) && x.at == p.at && x.used == Some(p.used) && since <= x.at {
      var i := LastOfDayIsLastOn(samples, since, x);
    }
  }

  lemma {:induction false} LastOnIsLastOfDay(samples: seq<Sample>, since: int, d: int, i: nat)
    requires IsLastOn(InOrder(samples), since, d, i)
    ensures IsLastOfItsDay(InOrder(samples)[i], samples)
  {
    var s := InOrder(samples);
    SortedMembers(samples, s[i]);
    forall y | y in samples && IsMeasured(y) && OfOneDay(s[i], y) ensures y.at <= s[i].at {
      SortedMembers(samples, y);
      var j :| 0 <= j < |s| && s[j] == y;
    }
  }

  lemma {:induction false} LastOfDayIsLastOn(samples: seq<Sample>, since: int, x: Sample) returns (i: nat)
    requires IsLastOfItsDay(x, samples) && since <= x.at
    ensures IsLastOn(InOrder(samples), since, DayOf(x.at), i) && InOrder(samples)[i] == x
  {
    var s := InOrder(samples);
    SortedMembers(samples, x);
    i :| i < |s| && s[i] == x;
    forall j | 0 <= j < |s| && DayOf(s[j].at) == DayOf(x.at) ensures s[j].at <= x.at {
      var y := s[j];
      assert y in s;
      SortedMembers(samples, y);
      assert OfOneDay(x, y);
    }
  }

  /** The regression sees days from the first point on, and bytes. */
  lemma {:induction false} AxesAre(points: seq<Point>, i: nat)
    requires i < |points|
    ensures Days(points)[i] * 86_400_000_000.0 == (points[i].at - points[0].at) as real
    ensures Usage(points)[i] == points[i].used as real
  {
  }

  // ---------- The forecast ----------

  /** The nearest integer; of two the even one. */
  ghost predicate IsNearest(n: int, x: real) {
    var off := x - n as real;
    -0.5 < off < 0.5 || ((off == 0.5 || off == -0.5) && n % 2 == 0)
  }

  lemma {:induction false} RoundedIsNearest(x: real)
    ensures IsNearest(Round(x), x)
  {
  }

  /** The drawn value of a day: the line rounded, and nothing below zero. */
  ghost predicate IsDrawn(used: int, line: real) {
    exists n :: IsNearest(n, line) && used == if n > 0 then n else 0
  }

  lemma {:induction false} DrawnIs(line: real)
    ensures IsDrawn(Max(0, Round(line)), line)
  {
    RoundedIsNearest(line);
    assert IsNearest(Round(line), line) && Max(0, Round(line)) == if Round(line) > 0 then Round(line) else 0;
  }

  /** The line starts at the last reading and grows by the slope every day. */
  lemma {:induction false} LineGrows(used: int, slope: real, d: nat)
    ensures LineAt(used, slope, 0) == used as real && LineAt(used, slope, d + 1) == LineAt(used, slope, d) + slope
  {
    NextDay(used, slope, d + 1);
  }

  /** The curve of the four weeks after an instant. */
  ghost predicate IsCurve(points: seq<Point>, at: int, used: int, growth: real) {
    |points| == 29 && forall d: nat | d < 29 ::
      points[d].at == at + d * 24 * 3600 * 1_000_000 && IsDrawn(points[d].used, LineAt(used, growth, d))
  }

  lemma {:induction false} CurveIs(f: Forecast)
    requires Coherent(f)
    ensures IsCurve(f.points, f.lastAt, f.lastUsed, f.growth)
  {
    forall d: nat | d < 29
      ensures f.points[d].at == f.lastAt + d * 24 * 3600 * 1_000_000
      ensures IsDrawn(f.points[d].used, LineAt(f.lastUsed, f.growth, d))
    {
      DrawnIs(LineAt(f.lastUsed, f.growth, d));
    }
  }

  /** Five days with a reading, a week between the first and the last. */
  ghost predicate AreEnough(points: seq<Point>) {
    |points| >= 5 && points[|points| - 1].at - points[0].at >= 7 * 24 * 3600 * 1_000_000
  }

  /** The forecast continues from the last reading; what is full is full at once. */
  ghost predicate ContinuesFrom(f: Forecast, last: Sample) {
    && f.lastAt == last.at && last.used == Some(f.lastUsed) && last.capacity == Some(f.capacity)
    && (f.lastUsed >= f.capacity ==> f.daysToFull == Some(0.0))
  }

  lemma {:induction false} SortedForecastSays(valid: seq<Sample>)
    requires AllUsable(valid) && valid != []
    ensures SortedForecast(valid).Some? <==> AreEnough(WindowOf(valid))
    ensures SortedForecast(valid).Some? ==> ContinuesFrom(SortedForecast(valid).value, valid[|valid| - 1])
  {
    var points, last := WindowOf(valid), valid[|valid| - 1];
    assert Enough(points) <==> AreEnough(points);
    if AreEnough(points) { FromLastReading(points, last); }
  }

  lemma {:induction false} FromLastReading(points: seq<Point>, last: Sample)
    requires |points| > 0 && Usable(last)
    ensures ContinuesFrom(ForecastFrom(points, last), last)
  {
  }

  /** There is a forecast exactly with five days that have a reading, a week between the
      first and the last; it starts at the last reading, names the day of a full object
      at once, and draws the line of the four weeks after it. */
  lemma {:induction false} ForecastSays(samples: seq<Sample>, last: Sample)
    requires NoTies(samples) && IsLast(last, samples)
    ensures ForecastOf(samples).Some? <==> AreEnough(DailyPointsOf(samples))
    ensures ForecastOf(samples).Some? ==>
              var f := ForecastOf(samples).value;
              && RegressionPoints(samples) == DailyPointsOf(samples)
              && ContinuesFrom(f, last) && IsCurve(f.points, f.lastAt, f.lastUsed, f.growth)
  {
    InOrderIsSorted(samples);
    LastInOrder(samples, last);
    SortedForecastSays(InOrder(samples));
    if ForecastOf(samples).Some? {
      ForecastsAreCoherent(samples);
      CurveIs(ForecastOf(samples).value);
    }
  }

  /** Without a usable sample there is no forecast. */
  lemma {:induction false} NothingMeasuredNothingForecast(samples: seq<Sample>)
    requires forall x :: x in samples ==> !IsMeasured(x)
    ensures ForecastOf(samples) == None
  {
    var s := InOrder(samples);
    InOrderIsSorted(samples);
    if s != [] { SortedMembers(samples, s[0]); }
  }
}
