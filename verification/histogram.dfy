/**
 * `build_histogram` (app.py): the timestamps of the events are spread over 25 equal
 * buckets between the earliest and the latest one; each bucket gets a count and a bar
 * height, and the y axis gets its ticks. Instants are whole microseconds, the resolution
 * of Python's `datetime`.
 */
module Histogram {
  import opened Wrappers
  import opened Dicts
  import opened Values

  const NumBuckets: nat := 25
  const MicrosPerSecond: nat := 1_000_000

  /** One bar: its count and its height in percent (the strftime label is not modelled). */
  datatype Bucket = Bucket(count: nat, height: nat)

  /**
   * The five results: the buckets, the bucket width in seconds (rendered by
   * `pretty_interval` in the source), the y ticks, and the first and last instant
   * (rendered by `strftime` in the source).
   */
  datatype Chart = Chart(buckets: seq<Bucket>, interval: Option<real>, yTicks: seq<int>, first: Option<int>, last: Option<int>)

  /** `e.get("timestamp_dt")` is absent, `None`, or a datetime. */
  predicate TimeDefined(e: Dict<Value>)
  {
    var t := Get(e, "timestamp_dt");
    t.None? || t.value == None_ || t.value.VTime?
  }

  predicate TimesDefined(events: seq<Dict<Value>>)
  {
    forall i | 0 <= i < |events| :: TimeDefined(events[i])
  }

  /** The event's instant, when it has one. */
  function TimeOf(e: Dict<Value>): Option<int>
  {
    var t := Get(e, "timestamp_dt");
    if t.Some? && t.value.VTime? then Some(t.value.micros) else None
  }

  /** The list comprehension of line 193: the instants of the events that have one, in order. */
  function Times(events: seq<Dict<Value>>): seq<int>
  {
    if events == [] then []
    else
      var t := TimeOf(events[|events| - 1]);
      Times(events[..|events| - 1]) + (if t.Some? then [t.value] else [])
  }

  /** `t` is an instant of the events exactly when some event has it. */
  lemma {:induction false} TimesMembers(events: seq<Dict<Value>>, t: int)
    ensures t in Times(events) <==> exists i | 0 <= i < |events| :: TimeOf(events[i]) == Some(t)
  {
    if events != [] {
      var init := events[..|events| - 1];
      TimesMembers(init, t);
      if exists i | 0 <= i < |events| :: TimeOf(events[i]) == Some(t) {
        var i :| 0 <= i < |events| && TimeOf(events[i]) == Some(t);
        if i < |init| {
          assert init[i] == events[i];
        }
      }
      if exists i | 0 <= i < |init| :: TimeOf(init[i]) == Some(t) {
        var i :| 0 <= i < |init| && TimeOf(init[i]) == Some(t);
        assert events[i] == init[i];
      }
    }
  }

  /** The instant `ts_list[0]` takes once sorted. */
  function Min(s: seq<int>): (r: int)
    requires s != []
    ensures r in s && forall i | 0 <= i < |s| :: r <= s[i]
  {
    if |s| == 1 then s[0]
    else
      var m := Min(s[1..]);
      assert forall i | 1 <= i < |s| :: s[i] == s[1..][i - 1];
      if s[0] < m then s[0] else m
  }

  /** The instant `ts_list[-1]` takes once sorted, and `max(counts)`. */
  function Max(s: seq<int>): (r: int)
    requires s != []
    ensures r in s && forall i | 0 <= i < |s| :: s[i] <= r
  {
    if |s| == 1 then s[0]
    else
      var m := Max(s[1..]);
      assert forall i | 1 <= i < |s| :: s[i] == s[1..][i - 1];
      if s[0] > m then s[0] else m
  }

  /** The width of the whole range in microseconds; a range of no width counts as one second. */
  function Span(lo: int, hi: int): (r: nat)
    ensures r > 0
    ensures hi > lo ==> r == hi - lo
  {
    if hi - lo <= 0 then MicrosPerSecond else hi - lo
  }

  /** `int(delta // interval_sec)` clamped to the last bucket, with `interval_sec == span / 25`. */
  function BucketOf(t: int, lo: int, span: nat): (r: nat)
    requires lo <= t && span > 0
    ensures r < NumBuckets
  {
    var idx := (NumBuckets * (t - lo)) / span;
    if idx >= NumBuckets then NumBuckets - 1 else idx
  }

  predicate AllAtLeast(ts: seq<int>, lo: int)
  {
    forall i | 0 <= i < |ts| :: lo <= ts[i]
  }

  /** How many of `ts` fall in bucket `b`. */
  function CountIn(ts: seq<int>, b: nat, lo: int, span: nat): nat
    requires AllAtLeast(ts, lo) && span > 0
  {
    if ts == [] then 0
    else
      CountIn(ts[..|ts| - 1], b, lo, span) + (if BucketOf(ts[|ts| - 1], lo, span) == b then 1 else 0)
  }

  /** The `counts` list once the loop of lines 208-215 is done. */
  function Counts(ts: seq<int>, lo: int, span: nat): (r: seq<nat>)
    requires AllAtLeast(ts, lo) && span > 0
    ensures |r| == NumBuckets && forall b | 0 <= b < NumBuckets :: r[b] == CountIn(ts, b, lo, span)
  {
    seq(NumBuckets, b requires 0 <= b < NumBuckets => CountIn(ts, b, lo, span))
  }

  /** `10 + int(90 * (count / max_count))`, or 10 when every bucket is empty. */
  function Height(count: nat, top: int): nat
  {
    if top > 0 then 10 + (90 * count) / top else 10
  }

  /** `max(1, math.ceil(max_count / 5))`. */
  function Step(top: nat): (r: nat)
    ensures r >= 1
  {
    var c := (top + 4) / 5;
    if c < 1 then 1 else c
  }

  /** `list(range(start, stop, step))`. */
  function Range(start: int, stop: int, step: nat): (r: seq<int>)
    requires step > 0
    ensures |r| > 0 ==> r[0] == start
    decreases stop - start
  {
    if start >= stop then [] else [start] + Range(start + step, stop, step)
  }

  /** Lines 234-240. */
  function YTicks(top: int): seq<int>
  {
    if top <= 0 then [0]
    else
      var r := Range(0, top + 1, Step(top));
      if r[|r| - 1] != top then r + [top] else r
  }

  function Bars(counts: seq<nat>, top: int): (r: seq<Bucket>)
    ensures |r| == |counts| && forall i | 0 <= i < |counts| :: r[i] == Bucket(counts[i], Height(counts[i], top))
  {
    seq(|counts|, i requires 0 <= i < |counts| => Bucket(counts[i], Height(counts[i], top)))
  }

  /** What `build_histogram(events)` returns. */
  function ChartOf(events: seq<Dict<Value>>): Chart
  {
    var ts := Times(events);
    if ts == [] then Chart([], None, [], None, None)
    else
      var lo, hi := Min(ts), Max(ts);
      var span := Span(lo, hi);
      assert AllAtLeast(ts, lo);
      var counts := Counts(ts, lo, span);
      var top := Max(counts);
      Chart(Bars(counts, top), Some(span as real / (NumBuckets * MicrosPerSecond) as real), YTicks(top), Some(lo), Some(hi))
  }

  method BuildHistogram(events: seq<Dict<Value>>) returns (chart: Chart)
    requires TimesDefined(events)
    ensures chart == ChartOf(events)
  {
    var ts := Times(events);
    if ts == [] {
      return Chart([], None, [], None, None);
    }
    var lo, hi := Min(ts), Max(ts);
    var total := hi - lo;
    if total <= 0 {
      total := MicrosPerSecond;
    }
    assert total == Span(lo, hi);
    assert AllAtLeast(ts, lo);
    var counts := CountBuckets(ts, lo, total);
    var top := Max(counts[..]);
    var buckets := BuildBars(counts[..], top);
    var yTicks := BuildTicks(top);
    chart := Chart(buckets, Some(total as real / (NumBuckets * MicrosPerSecond) as real), yTicks, Some(lo), Some(hi));
  }

  /** Lines 219-232: one bar per bucket. */
  method BuildBars(counts: seq<nat>, top: int) returns (buckets: seq<Bucket>)
    ensures buckets == Bars(counts, top)
  {
    buckets := [];
    for i := 0 to |counts|
      invariant |buckets| == i
      invariant forall j | 0 <= j < i :: buckets[j] == Bucket(counts[j], Height(counts[j], top))
    {
      var height := if top > 0 then 10 + (90 * counts[i]) / top else 10;
      buckets := buckets + [Bucket(counts[i], height)];
    }
  }

  /** Lines 234-240: the y ticks. */
  method BuildTicks(top: int) returns (yTicks: seq<int>)
    ensures yTicks == YTicks(top)
  {
    if top <= 0 {
      yTicks := [0];
    } else {
      yTicks := Range(0, top + 1, Step(top));
      if yTicks[|yTicks| - 1] != top {
        yTicks := yTicks + [top];
      }
    }
  }

  /** Lines 208-215: `counts = [0] * num_buckets`, then one increment per instant. */
  method CountBuckets(ts: seq<int>, lo: int, total: nat) returns (counts: array<nat>)
    requires AllAtLeast(ts, lo) && total > 0
    ensures fresh(counts) && counts[..] == Counts(ts, lo, total)
  {
    counts := new nat[NumBuckets](_ => 0);
    for i := 0 to |ts|
      invariant counts.Length == NumBuckets
      invariant forall b | 0 <= b < NumBuckets :: counts[b] == CountIn(ts[..i], b, lo, total)
    {
      assert ts[..i + 1][..i] == ts[..i];
      var delta := ts[i] - lo;
      var idx := (NumBuckets * delta) / total;
      if idx >= NumBuckets {
        idx := NumBuckets - 1;
      }
      assert idx == BucketOf(ts[i], lo, total);
      counts[idx] := counts[idx] + 1;
    }
    assert ts[..|ts|] == ts;
  }

  /** Integer division keeps order. */
  lemma DivMonotone(a: int, b: int, d: int)
    requires 0 <= a <= b && d > 0
    ensures a / d <= b / d
  {
    if a / d > b / d {
      MulMonotone(d, b / d + 1, a / d);
      assert false;
    }
  }

  lemma MulMonotone(d: nat, x: int, y: int)
    requires x <= y
    ensures d * x <= d * y
  {
    assert d * y - d * x == d * (y - x);
  }

  /** The bucket index never decreases as the instant grows. */
  lemma BucketMonotone(t1: int, t2: int, lo: int, span: nat)
    requires lo <= t1 <= t2 && span > 0
    ensures BucketOf(t1, lo, span) <= BucketOf(t2, lo, span)
  {
    DivMonotone(NumBuckets * (t1 - lo), NumBuckets * (t2 - lo), span);
  }

  /**
   * Bucket `b` holds exactly the instants in `[lo + b * interval, lo + (b + 1) * interval)`,
   * with `interval == span / 25`; the last bucket also takes everything from its start on.
   */
  lemma BucketInterval(t: int, lo: int, span: nat, b: nat)
    requires lo <= t && span > 0 && b < NumBuckets
    ensures BucketOf(t, lo, span) == b <==>
      b * span <= NumBuckets * (t - lo) && (b == NumBuckets - 1 || NumBuckets * (t - lo) < (b + 1) * span)
  {
    var x := NumBuckets * (t - lo);
    var q := x / span;
    DivBounds(x, span);
    if q < b {
      MulLe(q + 1, b, span);
    } else if q > b {
      MulLe(b + 1, q, span);
      MulLe(b, q, span);
    }
  }

  /** The quotient brackets the dividend. */
  lemma DivBounds(x: int, d: int)
    requires x >= 0 && d > 0
    ensures (x / d) * d <= x < (x / d + 1) * d
  {
    var q, r := x / d, x % d;
    assert x == q * d + r && 0 <= r < d;
    assert (q + 1) * d == q * d + d;
  }

  lemma MulLe(x: int, y: int, d: nat)
    requires x <= y
    ensures x * d <= y * d
  {
    assert y * d - x * d == (y - x) * d;
  }

  /** The earliest instant lands in the first bucket; when the range has width, the latest lands in the last. */
  lemma BucketEnds(lo: int, hi: int)
    requires lo <= hi
    ensures BucketOf(lo, lo, Span(lo, hi)) == 0
    ensures hi > lo ==> BucketOf(hi, lo, Span(lo, hi)) == NumBuckets - 1
    ensures hi == lo ==> BucketOf(hi, lo, Span(lo, hi)) == 0
  {
    if hi > lo {
      MulDiv(NumBuckets, hi - lo);
    }
  }

  lemma MulDiv(k: nat, d: int)
    requires d > 0
    ensures (k * d) / d == k
  {
    var q := (k * d) / d;
    DivBounds(k * d, d);
    if q < k {
      MulLe(q + 1, k, d);
    }
  }

  function Sum(s: seq<nat>): nat
  {
    if s == [] then 0 else Sum(s[..|s| - 1]) + s[|s| - 1]
  }

  /** How many of `ts` fall below bucket `n`. */
  function Below(ts: seq<int>, n: nat, lo: int, span: nat): nat
    requires AllAtLeast(ts, lo) && span > 0
  {
    if ts == [] then 0
    else Below(ts[..|ts| - 1], n, lo, span) + (if BucketOf(ts[|ts| - 1], lo, span) < n then 1 else 0)
  }

  lemma {:induction false} BelowStep(ts: seq<int>, n: nat, lo: int, span: nat)
    requires AllAtLeast(ts, lo) && span > 0
    ensures Below(ts, n + 1, lo, span) == Below(ts, n, lo, span) + CountIn(ts, n, lo, span)
  {
    if ts != [] {
      BelowStep(ts[..|ts| - 1], n, lo, span);
    }
  }

  lemma {:induction false} BelowAll(ts: seq<int>, lo: int, span: nat)
    requires AllAtLeast(ts, lo) && span > 0
    ensures Below(ts, NumBuckets, lo, span) == |ts|
  {
    if ts != [] {
      BelowAll(ts[..|ts| - 1], lo, span);
    }
  }

  lemma {:induction false} SumBelow(ts: seq<int>, lo: int, span: nat, n: nat)
    requires AllAtLeast(ts, lo) && span > 0 && n <= NumBuckets
    ensures Sum(Counts(ts, lo, span)[..n]) == Below(ts, n, lo, span)
  {
    if n > 0 {
      var c := Counts(ts, lo, span);
      assert c[..n][..n - 1] == c[..n - 1];
      SumBelow(ts, lo, span, n - 1);
      BelowStep(ts, n - 1, lo, span);
    } else {
      assert Below(ts, 0, lo, span) == 0 by {
        BelowNone(ts, lo, span);
      }
    }
  }

  lemma {:induction false} BelowNone(ts: seq<int>, lo: int, span: nat)
    requires AllAtLeast(ts, lo) && span > 0
    ensures Below(ts, 0, lo, span) == 0
  {
    if ts != [] {
      BelowNone(ts[..|ts| - 1], lo, span);
    }
  }

  /** Every instant is counted in exactly one bucket: the counts add up to the number of instants. */
  lemma CountsSum(ts: seq<int>, lo: int, span: nat)
    requires AllAtLeast(ts, lo) && span > 0
    ensures Sum(Counts(ts, lo, span)) == |ts|
  {
    var c := Counts(ts, lo, span);
    assert c[..NumBuckets] == c;
    SumBelow(ts, lo, span, NumBuckets);
    BelowAll(ts, lo, span);
  }

  /** A bar is between 10 and 100 high; it is 100 high exactly when its count is the largest. */
  lemma HeightBounds(count: nat, top: nat)
    requires count <= top
    ensures 10 <= Height(count, top) <= 100
    ensures top > 0 ==> (Height(count, top) == 100 <==> count == top)
  {
    if top > 0 {
      DivMonotone(90 * count, 90 * top, top);
      assert (90 * top) / top == 90;
      if count < top {
        if (90 * count) / top >= 90 {
          assert false;
        }
      }
    }
  }

  /** Taller bars have larger counts. */
  lemma HeightMonotone(c1: nat, c2: nat, top: nat)
    requires c1 <= c2
    ensures Height(c1, top) <= Height(c2, top)
  {
    if top > 0 {
      DivMonotone(90 * c1, 90 * c2, top);
    }
  }

  /** The elements of `range(start, stop, step)`: `start + i * step` for as long as that is below `stop`. */
  lemma {:induction false} RangeElements(start: int, stop: int, step: nat)
    requires step > 0
    ensures forall i | 0 <= i < |Range(start, stop, step)| :: Range(start, stop, step)[i] == start + i * step
    ensures forall i | 0 <= i < |Range(start, stop, step)| :: Range(start, stop, step)[i] < stop
    ensures Range(start, stop, step) != [] ==> Range(start, stop, step)[|Range(start, stop, step)| - 1] + step >= stop
    ensures start < stop ==> Range(start, stop, step) != []
    decreases stop - start
  {
    if start < stop {
      RangeElements(start + step, stop, step);
      var r := Range(start, stop, step);
      var rest := Range(start + step, stop, step);
      assert r == [start] + rest;
      forall i | 1 <= i < |r| ensures r[i] == start + i * step {
        assert r[i] == rest[i - 1] == start + step + (i - 1) * step;
      }
    }
  }

  predicate StrictlyIncreasing(s: seq<int>)
  {
    forall i, j | 0 <= i < j < |s| :: s[i] < s[j]
  }

  /** `range` climbs from `start` by exactly `step` each time. */
  lemma {:induction false} RangeIncreasing(start: int, stop: int, step: nat)
    requires step > 0
    ensures forall i | 0 <= i < |Range(start, stop, step)| :: Range(start, stop, step)[i] >= start
    ensures forall i | 0 <= i < |Range(start, stop, step)| - 1 ::
      Range(start, stop, step)[i + 1] == Range(start, stop, step)[i] + step
    ensures StrictlyIncreasing(Range(start, stop, step))
    decreases stop - start
  {
    if start < stop {
      RangeIncreasing(start + step, stop, step);
      var r := Range(start, stop, step);
      assert r == [start] + Range(start + step, stop, step);
    }
  }

  lemma StepCovers(top: nat)
    requires top > 0
    ensures 5 * Step(top) >= top
    ensures 5 * (Step(top) - 1) < top
  {
    var c := (top + 4) / 5;
    assert top + 4 == 5 * c + (top + 4) % 5;
  }

  /** The ticks `range(0, top + 1, step)` produces before the last one is added. */
  lemma TickRange(top: nat)
    requires top > 0
    ensures var r := Range(0, top + 1, Step(top));
      && 0 < |r| <= 6 && r[0] == 0
      && StrictlyIncreasing(r)
      && (forall i | 0 <= i < |r| :: 0 <= r[i] <= top)
      && (forall i | 0 <= i < |r| - 1 :: r[i + 1] - r[i] == Step(top))
  {
    var step := Step(top);
    var r := Range(0, top + 1, step);
    RangeElements(0, top + 1, step);
    RangeIncreasing(0, top + 1, step);
    StepCovers(top);
    if |r| > 6 {
      assert false;
    }
  }

  /**
   * The y ticks run from 0 up to the largest count, strictly increasing, in steps of
   * `max(1, ceil(top / 5))` with a shorter last step when needed, at most seven of them.
   */
  lemma YTicksShape(top: nat)
    requires top > 0
    ensures var y := YTicks(top);
      && y != [] && y[0] == 0 && y[|y| - 1] == top
      && StrictlyIncreasing(y)
      && (forall i | 0 <= i < |y| :: 0 <= y[i] <= top)
      && (forall i | 0 <= i < |y| - 2 :: y[i + 1] - y[i] == Step(top))
      && |y| <= 7
  {
    var r := Range(0, top + 1, Step(top));
    TickRange(top);
    if r[|r| - 1] != top {
      AppendLarger(r, top);
    }
  }

  lemma AppendLarger(r: seq<int>, x: int)
    requires StrictlyIncreasing(r) && r != [] && r[|r| - 1] < x
    ensures StrictlyIncreasing(r + [x])
  {
    var y := r + [x];
    forall i, j | 0 <= i < j < |y| ensures y[i] < y[j] {
      if j == |r| {
        assert y[i] <= r[|r| - 1];
      }
    }
  }

  /** `build_histogram` returns all-empty results exactly when no event has a timestamp. */
  lemma EmptyChart(events: seq<Dict<Value>>)
    ensures ChartOf(events) == Chart([], None, [], None, None) <==> forall i | 0 <= i < |events| :: TimeOf(events[i]).None?
  {
    var ts := Times(events);
    if ts == [] {
      forall i | 0 <= i < |events| ensures TimeOf(events[i]).None? {
        if TimeOf(events[i]).Some? {
          TimesMembers(events, TimeOf(events[i]).value);
        }
      }
    } else {
      TimesMembers(events, ts[0]);
    }
  }

  /**
   * A non-empty histogram: 25 bars whose counts add up to the number of timestamped
   * events, each count the number of instants its bucket holds, every bar 10 to 100 high
   * and at least one 100 high; the range runs from the earliest to the latest instant, the
   * earliest in the first bucket, the latest in the last one when the range has width.
   */
  lemma ChartShape(events: seq<Dict<Value>>)
    requires Times(events) != []
    ensures var ts := Times(events);
      var c := ChartOf(events);
      && |c.buckets| == NumBuckets
      && Sum(seq(NumBuckets, i requires 0 <= i < NumBuckets => c.buckets[i].count)) == |ts|
      && (forall b | 0 <= b < NumBuckets :: c.buckets[b].count == CountIn(ts, b, Min(ts), Span(Min(ts), Max(ts))))
      && (forall b | 0 <= b < NumBuckets :: 10 <= c.buckets[b].height <= 100)
      && (exists b | 0 <= b < NumBuckets :: c.buckets[b].height == 100)
      && c.first == Some(Min(ts)) && c.last == Some(Max(ts))
      && c.interval == Some(Span(Min(ts), Max(ts)) as real / (NumBuckets * MicrosPerSecond) as real)
  {
    var ts := Times(events);
    var lo, hi := Min(ts), Max(ts);
    var span := Span(lo, hi);
    assert AllAtLeast(ts, lo);
    var counts := Counts(ts, lo, span);
    var top := Max(counts);
    var c := ChartOf(events);
    assert c.buckets == Bars(counts, top);
    assert seq(NumBuckets, i requires 0 <= i < NumBuckets => c.buckets[i].count) == counts;
    CountsSum(ts, lo, span);
    assert top >= 1 by {
      if top == 0 {
        assert forall b | 0 <= b < NumBuckets :: counts[b] == 0;
        ZeroSum(counts);
        assert false;
      }
    }
    forall b | 0 <= b < NumBuckets ensures 10 <= c.buckets[b].height <= 100 {
      HeightBounds(counts[b], top);
    }
    var b :| 0 <= b < NumBuckets && counts[b] == top;
    HeightBounds(counts[b], top);
  }

  /** The y axis of a non-empty histogram starts at 0 and ends at the tallest bar's count. */
  lemma ChartTicks(events: seq<Dict<Value>>)
    requires Times(events) != []
    ensures var c := ChartOf(events);
      && c.yTicks != [] && c.yTicks[0] == 0 && StrictlyIncreasing(c.yTicks)
      && (forall b | 0 <= b < |c.buckets| :: c.buckets[b].count <= c.yTicks[|c.yTicks| - 1])
      && (exists b | 0 <= b < |c.buckets| :: c.buckets[b].count == c.yTicks[|c.yTicks| - 1])
  {
    var ts := Times(events);
    var lo, hi := Min(ts), Max(ts);
    var counts := Counts(ts, lo, Span(lo, hi));
    var top := Max(counts);
    ChartShape(events);
    assert top >= 1 by {
      var b :| 0 <= b < NumBuckets && ChartOf(events).buckets[b].height == 100;
    }
    YTicksShape(top);
    var b :| 0 <= b < NumBuckets && counts[b] == top;
    assert ChartOf(events).buckets[b].count == top;
  }

  lemma {:induction false} ZeroSum(s: seq<nat>)
    requires forall i | 0 <= i < |s| :: s[i] == 0
    ensures Sum(s) == 0
  {
    if s != [] {
      ZeroSum(s[..|s| - 1]);
    }
  }
}
