/** The capacity forecast of backend/app/core/capacity_forecast.py: the daily
    readings of the last 30 days, the regression through them, and the alarm.
    Instants are microseconds on one clock, floats are reals. */
module CapacityForecast {
  import opened Wrappers
  import opened ClockTimes
  import Texts
  import opened Regression

  datatype Sample = Sample(at: int, used: Option<int>, capacity: Option<int>)

  datatype Point = Point(at: int, used: int)

  datatype Forecast = Forecast(growth: real, capacity: int, lastUsed: int, lastAt: int,
                               daysToFull: Option<real>, points: seq<Point>)
  {
    predicate FullWithinHorizon() {
      growth > 0.0 && daysToFull.Some? && daysToFull.value <= 28.0
    }
  }

  // ---------- The readings used ----------

  /** A usage, and a capacity that is neither missing nor zero. */
  predicate Usable(s: Sample) {
    s.used.Some? && s.capacity.Some? && s.capacity.value != 0
  }

  function Inserted(s: seq<Sample>, x: Sample): seq<Sample> {
    if s == [] || s[|s| - 1].at <= x.at then s + [x]
    else Inserted(s[..|s| - 1], x) + [s[|s| - 1]]
  }

  /** The usable samples, stably sorted by time. */
  function InOrder(samples: seq<Sample>): seq<Sample> {
    if samples == [] then []
    else
      var before := InOrder(samples[..|samples| - 1]);
      var x := samples[|samples| - 1];
      if Usable(x) then Inserted(before, x) else before
  }

  ghost predicate Ascending(s: seq<Sample>) {
    forall i, j :: 0 <= i < j < |s| ==> s[i].at <= s[j].at
  }

  ghost predicate AllUsable(s: seq<Sample>) {
    forall i :: 0 <= i < |s| ==> Usable(s[i])
  }

  function Reading(s: Sample): Point
    requires Usable(s)
  {
    Point(s.at, s.used.value)
  }

  /** The last reading of day `d` among those not before `since`. */
  function LastOn(s: seq<Sample>, since: int, d: int): Option<Point>
    requires AllUsable(s)
  {
    if s == [] then None
    else
      var x := s[|s| - 1];
      if since <= x.at && DayOf(x.at) == d then Some(Reading(x))
      else LastOn(s[..|s| - 1], since, d)
  }

  ghost predicate Rising(points: seq<Point>) {
    forall i, j :: 0 <= i < j < |points| ==> points[i].at < points[j].at
  }

  /** The points the regression sees: of every day its last reading, in the
      order of time. At most one sequence meets this (see OnePointSequence). */
  ghost predicate AreDailyPoints(points: seq<Point>, s: seq<Sample>, since: int)
    requires AllUsable(s)
  {
    Rising(points) && forall p :: p in points <==> LastOn(s, since, DayOf(p.at)) == Some(p)
  }

  /** The same points read off the sorted samples directly: a sample replaces
      the point before it when both are of one day. */
  function PointsOf(s: seq<Sample>, since: int): seq<Point>
    requires AllUsable(s)
  {
    if s == [] then []
    else
      var before, x := PointsOf(s[..|s| - 1], since), s[|s| - 1];
      var n := |before|;
      if x.at < since then before
      else if n > 0 && DayOf(before[n - 1].at) == DayOf(x.at) then before[..n - 1] + [Reading(x)]
      else before + [Reading(x)]
  }

  // ---------- Sorting ----------

  /** Inserting keeps the order, and nothing in the result is later than what
      nothing in the sequence was later than. */
  lemma {:induction false} InsertedKeepsOrder(s: seq<Sample>, x: Sample)
    requires Ascending(s)
    ensures Ascending(Inserted(s, x))
    ensures forall t :: x.at <= t && (s == [] || s[|s| - 1].at <= t) ==> NoneLater(Inserted(s, x), t)
  {
    if s != [] && s[|s| - 1].at > x.at {
      var rest, last := s[..|s| - 1], s[|s| - 1];
      InsertedKeepsOrder(rest, x);
      assert NoneLater(Inserted(rest, x), last.at);
    }
  }

  ghost predicate NoneLater(s: seq<Sample>, t: int) { forall i :: 0 <= i < |s| ==> s[i].at <= t }

  lemma {:induction false} InsertedOnce(s: seq<Sample>, x: Sample)
    ensures multiset(Inserted(s, x)) == multiset(s) + multiset{x}
  {
    if s != [] && s[|s| - 1].at > x.at {
      InsertedOnce(s[..|s| - 1], x);
      assert s == s[..|s| - 1] + [s[|s| - 1]];
    }
  }

  lemma {:induction false} InsertedUsable(s: seq<Sample>, x: Sample)
    requires AllUsable(s) && Usable(x)
    ensures AllUsable(Inserted(s, x))
  {
    if s != [] && s[|s| - 1].at > x.at { InsertedUsable(s[..|s| - 1], x); }
  }

  function UsableOnes(samples: seq<Sample>): seq<Sample> {
    if samples == [] then []
    else
      var x := samples[|samples| - 1];
      UsableOnes(samples[..|samples| - 1]) + if Usable(x) then [x] else []
  }

  lemma {:induction false} InOrderIsSorted(samples: seq<Sample>)
    ensures Ascending(InOrder(samples)) && AllUsable(InOrder(samples))
    ensures multiset(InOrder(samples)) == multiset(UsableOnes(samples))
  {
    if samples != [] {
      var before, x := samples[..|samples| - 1], samples[|samples| - 1];
      InOrderIsSorted(before);
      if Usable(x) {
        InsertedKeepsOrder(InOrder(before), x);
        InsertedOnce(InOrder(before), x);
        InsertedUsable(InOrder(before), x);
      }
    }
  }

  // ---------- The daily points ----------

  method DailyPoints(valid: seq<Sample>, since: int) returns (points: seq<Point>)
    requires Ascending(valid) && AllUsable(valid)
    ensures points == PointsOf(valid, since)
  {
    var byDay: map<int, Point> := map[];
    var days: seq<int> := [];
    var k := 0;
    while k < |valid|
      invariant 0 <= k <= |valid|
      invariant AllUsable(valid[..k])
      invariant forall d :: d in byDay <==> d in days
      invariant forall i :: 0 <= i < |days| ==> days[i] in byDay
      invariant forall i, j :: 0 <= i < j < |days| ==> days[i] != days[j]
      invariant forall d :: d in byDay <==> LastOn(valid[..k], since, d).Some?
      invariant forall d :: d in byDay ==> LastOn(valid[..k], since, d) == Some(byDay[d]) && DayOf(byDay[d].at) == d
    {
      var x := valid[k];
      assert valid[..k + 1][..k] == valid[..k];
      if since <= x.at {
        var d := DayOf(x.at);
        if d !in byDay { days := days + [d]; }
        byDay := byDay[d := Reading(x)];
      }
      k := k + 1;
    }
    assert valid[..k] == valid;
    points := SortedValues(days, byDay);
    PointsAreDaily(valid, since);
    OnePointSequence(points, PointsOf(valid, since));
  }

  method InsertPoint(points: seq<Point>, x: Point) returns (r: seq<Point>)
    requires Rising(points) && forall p :: p in points ==> p.at != x.at
    ensures Rising(r) && forall p :: p in r <==> p == x || p in points
  {
    var i := |points|;
    while 0 < i && x.at < points[i - 1].at
      invariant 0 <= i <= |points|
      invariant forall j :: i <= j < |points| ==> x.at < points[j].at
    {
      i := i - 1;
    }
    forall j | 0 <= j < i ensures points[j].at < x.at {
      var y := points[j];
      assert y in points;
      assert points[j].at <= points[i - 1].at <= x.at;
    }
    r := points[..i] + [x] + points[i..];
    PointPlaced(points, x, i, r);
  }

  lemma {:induction false} PointPlaced(points: seq<Point>, x: Point, i: nat, r: seq<Point>)
    requires Rising(points) && i <= |points| && r == points[..i] + [x] + points[i..]
    requires forall j :: 0 <= j < i ==> points[j].at < x.at
    requires forall j :: i <= j < |points| ==> x.at < points[j].at
    ensures Rising(r) && forall p :: p in r <==> p == x || p in points
  {
    var before, after := points[..i], points[i..];
    assert points == before + after;
    MembersInserted(before, x, after);
  }

  lemma {:induction false} MembersInserted(before: seq<Point>, x: Point, after: seq<Point>)
    ensures forall p :: p in before + [x] + after <==> p == x || p in before + after
  {
  }

  /** `sorted(by_day.values())`; `days` holds the keys in their order of insertion. */
  method SortedValues(days: seq<int>, byDay: map<int, Point>) returns (points: seq<Point>)
    requires forall d :: d in byDay ==> d in days && DayOf(byDay[d].at) == d
    requires forall i :: 0 <= i < |days| ==> days[i] in byDay
    requires forall i, j :: 0 <= i < j < |days| ==> days[i] != days[j]
    ensures Rising(points)
    ensures forall p :: p in points <==> DayOf(p.at) in byDay && byDay[DayOf(p.at)] == p
  {
    points := [];
    var k := 0;
    while k < |days|
      invariant 0 <= k <= |days| && Rising(points)
      invariant forall p :: p in points <==> DayOf(p.at) in days[..k] && byDay[DayOf(p.at)] == p
    {
      var x := byDay[days[k]];
      assert days[..k + 1] == days[..k] + [days[k]];
      forall p | p in points ensures p.at != x.at {
        assert DayOf(p.at) in days[..k];
      }
      points := InsertPoint(points, x);
      k := k + 1;
    }
    assert days[..k] == days;
  }

  ghost predicate SamePoints(a: seq<Point>, b: seq<Point>) {
    forall p :: p in a <==> p in b
  }

  lemma {:induction false} SameLastPoint(a: seq<Point>, b: seq<Point>)
    requires Rising(a) && Rising(b) && SamePoints(a, b) && a != []
    ensures b != [] && a[|a| - 1] == b[|b| - 1]
  {
    var x := a[|a| - 1];
    assert x in b;
    var y := b[|b| - 1];
    assert y in a;
    var i :| 0 <= i < |b| && b[i] == x;
    var j :| 0 <= j < |a| && a[j] == y;
    assert x.at <= y.at <= x.at;
  }

  lemma {:induction false} FrontPoints(a: seq<Point>)
    requires Rising(a) && a != []
    ensures Rising(a[..|a| - 1]) && forall p :: p in a[..|a| - 1] <==> p in a && p != a[|a| - 1]
  {
    assert a == a[..|a| - 1] + [a[|a| - 1]];
  }

  lemma {:induction false} OnePointSequence(a: seq<Point>, b: seq<Point>)
    requires Rising(a) && Rising(b) && SamePoints(a, b)
    ensures a == b
  {
    if a == [] && b != [] {
      SameLastPoint(b, a);
    } else if a != [] {
      SameLastPoint(a, b);
      FrontPoints(a);
      FrontPoints(b);
      var c, d := a[..|a| - 1], b[..|b| - 1];
      forall p ensures p in c <==> p in d { assert p in a <==> p in b; }
      OnePointSequence(c, d);
      assert a == a[..|a| - 1] + [a[|a| - 1]] && b == b[..|b| - 1] + [b[|b| - 1]];
    }
  }

  lemma {:induction false} LastOnIsReading(s: seq<Sample>, since: int, d: int) returns (i: nat)
    requires AllUsable(s) && LastOn(s, since, d).Some?
    ensures i < |s| && since <= s[i].at && DayOf(s[i].at) == d && LastOn(s, since, d) == Some(Reading(s[i]))
  {
    var n := |s| - 1;
    if since <= s[n].at && DayOf(s[n].at) == d {
      i := n;
    } else {
      i := LastOnIsReading(s[..n], since, d);
    }
  }

  lemma {:induction false} DaysAreOrdered(a: int, b: int)
    requires a <= b
    ensures DayOf(a) <= DayOf(b)
  {}

  /** Every day is represented by its last reading, and by that alone. */
  lemma {:induction false} PointsAreDaily(s: seq<Sample>, since: int)
    requires Ascending(s) && AllUsable(s)
    ensures AreDailyPoints(PointsOf(s, since), s, since)
  {
    if s != [] {
      var rest, x := s[..|s| - 1], s[|s| - 1];
      PointsAreDaily(rest, since);
      var before := PointsOf(rest, since);
      if since <= x.at { NewReading(rest, x, since, before); assert s == rest + [x]; }
    }
  }

  lemma {:induction false} EarlierPoints(rest: seq<Sample>, x: Sample, since: int, before: seq<Point>, i: nat)
    requires Ascending(rest + [x]) && AllUsable(rest) && AreDailyPoints(before, rest, since) && i < |before|
    ensures before[i].at <= x.at && (DayOf(before[i].at) == DayOf(x.at) ==> i == |before| - 1)
    ensures i < |before| - 1 || DayOf(before[i].at) != DayOf(x.at) ==> before[i].at < x.at
  {
    var s := rest + [x];
    var p, q := before[i], before[|before| - 1];
    assert p in before && q in before;
    var k := LastOnIsReading(rest, since, DayOf(p.at));
    var j := LastOnIsReading(rest, since, DayOf(q.at));
    assert s[k].at <= s[|rest|].at && s[j].at <= s[|rest|].at;
    if i < |before| - 1 {
      OnePerDay(rest, since, before, i, |before| - 1);
      DaysAreOrdered(q.at, x.at);
    }
  }

  /** The points before that stay when a reading of day `d` comes in. */
  function OtherDays(before: seq<Point>, d: int): seq<Point> {
    if before != [] && DayOf(before[|before| - 1].at) == d then before[..|before| - 1] else before
  }

  lemma {:induction false} NewReading(rest: seq<Sample>, x: Sample, since: int, before: seq<Point>)
    requires Ascending(rest + [x]) && AllUsable(rest) && Usable(x) && since <= x.at
    requires AreDailyPoints(before, rest, since)
    ensures AreDailyPoints(OtherDays(before, DayOf(x.at)) + [Reading(x)], rest + [x], since)
  {
    var s, d, r := rest + [x], DayOf(x.at), Reading(x);
    var kept := OtherDays(before, d);
    assert s[..|s| - 1] == rest;
    forall i: nat | i < |before|
      ensures before[i].at <= x.at && (DayOf(before[i].at) == d ==> i == |before| - 1)
      ensures i < |before| - 1 || DayOf(before[i].at) != d ==> before[i].at < x.at
    {
      EarlierPoints(rest, x, since, before, i);
    }
    forall p ensures p in kept + [r] <==> LastOn(s, since, DayOf(p.at)) == Some(p) {
      if DayOf(p.at) != d {
        assert LastOn(s, since, DayOf(p.at)) == LastOn(rest, since, DayOf(p.at));
        assert p in kept <==> p in before;
      }
    }
  }

  lemma {:induction false} OnePerDay(s: seq<Sample>, since: int, points: seq<Point>, i: nat, j: nat)
    requires AllUsable(s) && AreDailyPoints(points, s, since) && i < j < |points|
    ensures DayOf(points[i].at) < DayOf(points[j].at)
  {
    var p, q := points[i], points[j];
    assert p in points && q in points && p.at < q.at;
    DaysAreOrdered(p.at, q.at);
  }

  // ---------- The forecast ----------

  function Days(points: seq<Point>): (r: seq<real>)
    ensures |r| == |points|
  {
    seq(|points|, i requires 0 <= i < |points| => (points[i].at - points[0].at) as real / 86400000000.0)
  }

  function Usage(points: seq<Point>): (r: seq<real>)
    ensures |r| == |points|
  {
    seq(|points|, i requires 0 <= i < |points| => points[i].used as real)
  }

  /** At least five days with a reading, the first and the last a week apart. */
  predicate Enough(points: seq<Point>) {
    |points| >= 5 && points[|points| - 1].at - points[0].at >= 604800000000
  }

  function Max(a: int, b: int): int { if a < b then b else a }

  /** Rounding to the nearest integer, a half to the even one. */
  function Round(x: real): int {
    var f := x.Floor;
    var r := x - f as real;
    if r < 0.5 then f else if r > 0.5 then f + 1 else if f % 2 == 0 then f else f + 1
  }

  function DaysToFull(used: int, capacity: int, slope: real): Option<real> {
    if used >= capacity then Some(0.0)
    else if slope > 0.0 then Some((capacity - used) as real / slope)
    else None
  }

  /** The line through the last reading, `d` days later. */
  function LineAt(used: int, slope: real, d: nat): real { used as real + slope * (d as real) }

  function UsageAt(used: int, slope: real, d: nat): int { Max(0, Round(LineAt(used, slope, d))) }

  function Projected(at: int, used: int, slope: real): (r: seq<Point>)
    ensures |r| == 29
    ensures forall d: nat | d < 29 :: r[d] == Point(at + d * 86400000000, UsageAt(used, slope, d))
  {
    seq(29, d requires 0 <= d < 29 => Point(at + d * 86400000000, UsageAt(used, slope, d)))
  }

  function ForecastFrom(points: seq<Point>, last: Sample): Forecast
    requires |points| > 0 && Usable(last)
  {
    var slope := Slope(Days(points), Usage(points));
    Forecast(slope, last.capacity.value, last.used.value, last.at,
             DaysToFull(last.used.value, last.capacity.value, slope),
             Projected(last.at, last.used.value, slope))
  }

  /** The daily points of the 30 days up to the last reading. */
  function WindowOf(valid: seq<Sample>): seq<Point>
    requires valid != [] && AllUsable(valid)
  {
    PointsOf(valid, valid[|valid| - 1].at - 2592000000000)
  }

  function SortedForecast(valid: seq<Sample>): Option<Forecast>
    requires AllUsable(valid)
  {
    if valid == [] || !Enough(WindowOf(valid)) then None
    else Some(ForecastFrom(WindowOf(valid), valid[|valid| - 1]))
  }

  function ForecastOf(samples: seq<Sample>): Option<Forecast> {
    InOrderIsSorted(samples);
    SortedForecast(InOrder(samples))
  }

  method MakeForecast(samples: seq<Sample>) returns (f: Option<Forecast>)
    ensures f == ForecastOf(samples)
  {
    InOrderIsSorted(samples);
    var valid := InOrder(samples);
    if valid == [] { return None; }
    var last := valid[|valid| - 1];
    var points := DailyPoints(valid, last.at - 2592000000000);
    if !Enough(points) { return None; }
    f := Some(ForecastFrom(points, last));
  }

  // ---------- What the forecast means ----------

  /** The reading the curve continues from is the last point of the regression. */
  lemma {:induction false} WindowEndsAtLastReading(valid: seq<Sample>)
    requires valid != [] && AllUsable(valid)
    ensures WindowOf(valid) != [] && WindowOf(valid)[|WindowOf(valid)| - 1] == Reading(valid[|valid| - 1])
  {}

  lemma {:induction false} InstantsDiffer(a: int, b: int)
    requires b - a >= 604800000000
    ensures (a - a) as real / 86400000000.0 != (b - a) as real / 86400000000.0
  {}

  /** Whenever there is a forecast its denominator is positive, and its growth is
      the slope of the one line that misses the daily points least. */
  lemma {:induction false} GrowthIsLeastSquares(points: seq<Point>, last: Sample, a: real, b: real)
    requires Enough(points) && Usable(last)
    ensures Spread(Days(points)) > 0.0
    ensures
      var xs, ys := Days(points), Usage(points);
      && Distance(ys, Best(xs, ys)) <= Distance(ys, Line(xs, a, b))
      && (Distance(ys, Line(xs, a, b)) == Distance(ys, Best(xs, ys)) ==> b == ForecastFrom(points, last).growth)
  {
    var xs, ys := Days(points), Usage(points);
    InstantsDiffer(points[0].at, points[|points| - 1].at);
    SpreadIsPositive(xs, 0, |xs| - 1);
    LeastSquares(xs, ys, 0, |xs| - 1, a, b);
  }

  lemma {:induction false} DivideBound(c: real, slope: real, days: real)
    requires slope > 0.0
    ensures c / slope <= days <==> c <= slope * days
    ensures slope * (c / slope) == c
  {
    var q := c / slope;
    Quotient(c, slope);
    if q <= days { Ordered(q, days, slope); }
    if days < q { Ordered(days, q, slope); }
  }

  lemma {:induction false} Ordered(a: real, b: real, m: real)
    requires m > 0.0
    ensures a <= b ==> m * a <= m * b
    ensures a < b ==> m * a < m * b
  {}

  /** What every forecast satisfies, whatever its samples. */
  ghost predicate Coherent(f: Forecast) {
    && f.daysToFull == DaysToFull(f.lastUsed, f.capacity, f.growth)
    && f.points == Projected(f.lastAt, f.lastUsed, f.growth)
  }

  lemma {:induction false} ForecastsAreCoherent(samples: seq<Sample>)
    requires ForecastOf(samples).Some?
    ensures Coherent(ForecastOf(samples).value)
  {}

  /** The alarm is raised exactly when usage grows and the line through the last
      reading has reached the capacity after 28 days. */
  lemma {:induction false} AlarmIffFullInFourWeeks(f: Forecast)
    requires Coherent(f)
    ensures f.FullWithinHorizon() <==> f.growth > 0.0 && f.lastUsed as real + f.growth * 28.0 >= f.capacity as real
  {
    if f.growth > 0.0 {
      DivideBound((f.capacity - f.lastUsed) as real, f.growth, 28.0);
    }
  }

  /** The day the forecast names is the day the line meets the capacity. */
  lemma {:induction false} FullWhenLineMeetsCapacity(f: Forecast)
    requires Coherent(f)
    ensures f.daysToFull == None <==> f.growth <= 0.0 && f.lastUsed < f.capacity
    ensures f.daysToFull.Some? && f.lastUsed < f.capacity
            ==> f.daysToFull.value > 0.0 && f.lastUsed as real + f.growth * f.daysToFull.value == f.capacity as real
  {
    if f.growth > 0.0 && f.lastUsed < f.capacity {
      DivideBound((f.capacity - f.lastUsed) as real, f.growth, 0.0);
    }
  }

  lemma {:induction false} RoundIsMonotone(x: real, y: real)
    requires x <= y
    ensures Round(x) <= Round(y)
  {}

  lemma {:induction false} RoundIsNearest(x: real, n: int)
    ensures x >= n as real ==> Round(x) >= n
    ensures x < n as real - 0.5 ==> Round(x) < n
  {}

  lemma {:induction false} FullByDay(used: int, capacity: int, g: real, d: nat)
    requires g > 0.0 && DaysToFull(used, capacity, g).value <= d as real
    ensures LineAt(used, g, d) >= capacity as real
  {
    DivideBound((capacity - used) as real, g, d as real);
    Ordered(0.0, d as real, g);
  }

  lemma {:induction false} CurveStarts(used: int, g: real)
    requires used >= 0
    ensures UsageAt(used, g, 0) == used
  {
    var u := used as real;
    assert u + g * 0.0 == u;
    RoundIsNearest(u, used);
    RoundIsNearest(u, used + 1);
  }

  lemma {:induction false} NextDay(used: int, g: real, d: nat)
    requires 0 < d
    ensures LineAt(used, g, d) == LineAt(used, g, d - 1) + g
  {
    assert g * (d as real) == g * ((d - 1) as real) + g;
  }

  lemma {:induction false} CurveMovesOneWay(used: int, g: real, d: nat)
    requires 0 < d
    ensures g >= 0.0 ==> UsageAt(used, g, d - 1) <= UsageAt(used, g, d)
    ensures g <= 0.0 ==> UsageAt(used, g, d - 1) >= UsageAt(used, g, d)
  {
    NextDay(used, g, d);
    RoundedSameWay(LineAt(used, g, d - 1), LineAt(used, g, d));
  }

  lemma {:induction false} RoundedSameWay(x: real, y: real)
    ensures x <= y ==> Max(0, Round(x)) <= Max(0, Round(y))
    ensures x >= y ==> Max(0, Round(x)) >= Max(0, Round(y))
  {
    if x <= y { RoundIsMonotone(x, y); }
    if x >= y { RoundIsMonotone(y, x); }
  }

  lemma {:induction false} CurveShowsFull(used: int, capacity: int, g: real, d: nat)
    requires capacity > 0
    ensures LineAt(used, g, d) >= capacity as real ==> UsageAt(used, g, d) >= capacity
    ensures UsageAt(used, g, d) >= capacity ==> LineAt(used, g, d) >= capacity as real - 0.5
  {
    RoundedReaches(LineAt(used, g, d), capacity);
  }

  lemma {:induction false} RoundedReaches(x: real, n: int)
    requires n > 0
    ensures x >= n as real ==> Max(0, Round(x)) >= n
    ensures Max(0, Round(x)) >= n ==> x >= n as real - 0.5
  {
    RoundIsNearest(x, n);
  }

  /** The drawn curve starts at the last reading, moves one way only, and shows
      the object full on each of its days from the named day on; it never shows it
      full half a byte early. */
  lemma {:induction false} CurveAgreesWithAlarm(f: Forecast, d: nat)
    requires Coherent(f) && f.lastUsed >= 0 && f.capacity > 0 && d <= 28
    ensures f.points[0] == Point(f.lastAt, f.lastUsed)
    ensures d > 0 && f.growth >= 0.0 ==> f.points[d - 1].used <= f.points[d].used
    ensures d > 0 && f.growth <= 0.0 ==> f.points[d - 1].used >= f.points[d].used
    ensures f.growth > 0.0 && f.daysToFull.value <= d as real ==> f.points[d].used >= f.capacity
    ensures f.points[d].used >= f.capacity ==> LineAt(f.lastUsed, f.growth, d) >= f.capacity as real - 0.5
  {
    CurveStarts(f.lastUsed, f.growth);
    if d > 0 { CurveMovesOneWay(f.lastUsed, f.growth, d); }
    if f.growth > 0.0 && f.daysToFull.value <= d as real { FullByDay(f.lastUsed, f.capacity, f.growth, d); }
    CurveShowsFull(f.lastUsed, f.capacity, f.growth, d);
  }

  /** The points a forecast is drawn through. */
  ghost function RegressionPoints(samples: seq<Sample>): seq<Point>
    requires ForecastOf(samples).Some?
  {
    InOrderIsSorted(samples);
    WindowOf(InOrder(samples))
  }

  /** From the samples to the alarm: the growth is the slope of the line that misses
      the daily points least, the curve goes on from the last of these points, and
      the alarm is raised exactly when it reaches the capacity within 28 days. */
  lemma {:induction false} AlarmOfSamples(samples: seq<Sample>, a: real, b: real)
    requires ForecastOf(samples).Some?
    ensures
      var f, points := ForecastOf(samples).value, RegressionPoints(samples);
      var xs, ys := Days(points), Usage(points);
      && Enough(points) && points[|points| - 1] == Point(f.lastAt, f.lastUsed)
      && Distance(ys, Best(xs, ys)) <= Distance(ys, Line(xs, a, b))
      && (Distance(ys, Line(xs, a, b)) == Distance(ys, Best(xs, ys)) ==> b == f.growth)
      && (f.FullWithinHorizon() <==> f.growth > 0.0 && f.lastUsed as real + f.growth * 28.0 >= f.capacity as real)
  {
    InOrderIsSorted(samples);
    var valid := InOrder(samples);
    ForecastsAreCoherent(samples);
    WindowEndsAtLastReading(valid);
    GrowthIsLeastSquares(WindowOf(valid), valid[|valid| - 1], a, b);
    AlarmIffFullInFourWeeks(ForecastOf(samples).value);
  }

  // ---------- Any order of the samples ----------

  /** No two usable samples of one instant differ. */
  ghost predicate NoTies(samples: seq<Sample>) {
    forall i, j | 0 <= i < |samples| && 0 <= j < |samples| ::
      Usable(samples[i]) && Usable(samples[j]) && samples[i].at == samples[j].at ==> samples[i] == samples[j]
  }

  lemma {:induction false} UsableCount(samples: seq<Sample>, x: Sample)
    ensures multiset(UsableOnes(samples))[x] == if Usable(x) then multiset(samples)[x] else 0
  {
    if samples != [] {
      UsableCount(samples[..|samples| - 1], x);
      assert samples == samples[..|samples| - 1] + [samples[|samples| - 1]];
    }
  }

  lemma {:induction false} SameLast(a: seq<Sample>, b: seq<Sample>)
    requires Ascending(a) && Ascending(b) && AllUsable(a) && multiset(a) == multiset(b) && NoTies(a)
    ensures |a| == |b| && (a != [] ==> a[|a| - 1] == b[|b| - 1])
  {
    assert |a| == |multiset(a)| && |b| == |multiset(b)|;
    if a != [] {
      var n := |a| - 1;
      var x, y := a[n], b[n];
      assert x in multiset(a) && y in multiset(b);
      var i :| 0 <= i < |b| && b[i] == x;
      var j :| 0 <= j < |a| && a[j] == y;
    }
  }

  lemma {:induction false} WithoutLast(a: seq<Sample>, b: seq<Sample>)
    requires multiset(a) == multiset(b) && |a| == |b| > 0 && a[|a| - 1] == b[|b| - 1]
    ensures multiset(a[..|a| - 1]) == multiset(b[..|b| - 1])
  {
    var n := |a| - 1;
    var c, d := a[..n], b[..n];
    assert a == c + [a[n]] && b == d + [a[n]];
    Texts.EqualWithout(multiset(c), multiset(d), a[n]);
  }

  lemma {:induction false} FrontIsSorted(s: seq<Sample>)
    requires s != [] && Ascending(s)
    ensures Ascending(s[..|s| - 1])
    ensures AllUsable(s) ==> AllUsable(s[..|s| - 1])
    ensures NoTies(s) ==> NoTies(s[..|s| - 1])
  {}

  lemma {:induction false} OneSampleSequence(a: seq<Sample>, b: seq<Sample>)
    requires Ascending(a) && Ascending(b) && AllUsable(a) && multiset(a) == multiset(b) && NoTies(a)
    ensures a == b
  {
    SameLast(a, b);
    if a != [] {
      var n := |a| - 1;
      WithoutLast(a, b);
      FrontIsSorted(a);
      FrontIsSorted(b);
      OneSampleSequence(a[..n], b[..n]);
      assert a == a[..n] + [a[n]] && b == b[..n] + [b[n]];
    }
  }

  lemma {:induction false} SortedFrom(samples: seq<Sample>, x: Sample)
    requires x in InOrder(samples)
    ensures x in samples && Usable(x)
  {
    InOrderIsSorted(samples);
    UsableCount(samples, x);
    assert x in multiset(InOrder(samples));
    assert x in multiset(samples);
  }

  lemma {:induction false} SortedKeepsNoTies(samples: seq<Sample>)
    requires NoTies(samples)
    ensures NoTies(InOrder(samples))
  {
    var s := InOrder(samples);
    forall i, j | 0 <= i < |s| && 0 <= j < |s| && s[i].at == s[j].at ensures s[i] == s[j] {
      SortedFrom(samples, s[i]);
      SortedFrom(samples, s[j]);
      var k :| 0 <= k < |samples| && samples[k] == s[i];
      var l :| 0 <= l < |samples| && samples[l] == s[j];
    }
  }

  /** The order in which the samples are handed over plays no part. */
  lemma {:induction false} OrderOfSamplesIsIrrelevant(a: seq<Sample>, b: seq<Sample>)
    requires multiset(a) == multiset(b) && NoTies(a)
    ensures ForecastOf(a) == ForecastOf(b)
  {
    InOrderIsSorted(a);
    InOrderIsSorted(b);
    forall x ensures multiset(UsableOnes(a))[x] == multiset(UsableOnes(b))[x] {
      UsableCount(a, x);
      UsableCount(b, x);
    }
    assert multiset(UsableOnes(a)) == multiset(UsableOnes(b));
    SortedKeepsNoTies(a);
    OneSampleSequence(InOrder(a), InOrder(b));
  }
}
