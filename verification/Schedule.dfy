/** Refresh points, query back-off and the monitor's scheduler
    (detail/ttl_refresh.h, detail/query_backoff.h and basic_service_monitor.h under
    lib/mdnspp/include/mdnspp). Points in time are clock ticks, `perMs` of them to the
    millisecond; fractions are exact. */
module Schedules {
  import opened Bytes
  import opened Names

  /** duration_cast: truncation toward zero */
  function Trunc(x: real): int {
    if x >= 0.0 then x.Floor else -((-x).Floor)
  }

  lemma TruncMonotone(x: real, y: real)
    requires x <= y
    ensures Trunc(x) <= Trunc(y)
  {
  }

  lemma TruncIsExact(x: real)
    requires x >= 0.0
    ensures Trunc(x) as real <= x < Trunc(x) as real + 1.0
  {
  }

  /** Truncation stays below a positive integer exactly if the number does. */
  lemma TruncBelow(x: real, n: int)
    requires n > 0
    ensures Trunc(x) < n <==> x < n as real
  {
  }

  // ---------------------------------------------------------------- refresh points

  datatype Schedule = Schedule(fireAt: seq<int>, next: nat)

  function Scaled(w: nat, x: real): real { w as real * x }

  lemma ScaledMonotone(w: nat, x: real, y: real)
    requires x <= y
    ensures Scaled(w, x) <= Scaled(w, y)
  {
    assert w as real * (y - x) >= 0.0;
  }

  lemma ScaledBelow(w: nat, x: real)
    requires w > 0
    ensures Scaled(w, x) < w as real <==> x < 1.0
  {
    if x < 1.0 {
      assert w as real * (1.0 - x) > 0.0;
    } else {
      ScaledMonotone(w, 1.0, x);
    }
  }

  /** The record's lifetime in ticks. */
  function Lifetime(ttl: u32, perMs: nat): nat { ttl * 1000 * perMs }

  /** A fire point for a threshold; `jitter` is the random addend as a fraction of the
      lifetime, between 0 and the jitter fraction. */
  function FirePoint(ttl: u32, perMs: nat, inserted: int, threshold: real, jitter: real): int {
    inserted + Trunc(Scaled(Lifetime(ttl, perMs), threshold + jitter))
  }

  ghost predicate InRange(jitters: seq<real>, n: nat, pct: real) {
    |jitters| == n && forall i :: 0 <= i < n ==> 0.0 <= jitters[i] <= pct
  }

  /** A point is the last tick not after its fraction of the lifetime. */
  lemma FirePointIsExact(ttl: u32, perMs: nat, inserted: int, threshold: real, jitter: real)
    requires threshold + jitter >= 0.0
    ensures var ticks := (FirePoint(ttl, perMs, inserted, threshold, jitter) - inserted) as real;
            ticks <= (ttl * 1000 * perMs) as real * (threshold + jitter) < ticks + 1.0
  {
    var w := Lifetime(ttl, perMs);
    ScaledMonotone(w, 0.0, threshold + jitter);
    assert Scaled(w, 0.0) == 0.0;
    assert Scaled(w, threshold + jitter) == (ttl * 1000 * perMs) as real * (threshold + jitter);
    hide Scaled, Lifetime;
  }

  function FirePoints(ttl: u32, perMs: nat, inserted: int, thresholds: seq<real>, jitters: seq<real>): (r: seq<int>)
    requires |jitters| == |thresholds|
    ensures |r| == |thresholds|
  {
    seq(|thresholds|, i requires 0 <= i < |thresholds| => FirePoint(ttl, perMs, inserted, thresholds[i], jitters[i]))
  }

  /** make_refresh_schedule; `draws` are what the random generator yields in [0, 1]. */
  method MakeRefreshSchedule(ttl: u32, perMs: nat, thresholds: seq<real>, pct: real, inserted: int, draws: seq<real>)
    returns (sched: Schedule)
    requires perMs > 0 && pct >= 0.0 && InRange(draws, |thresholds|, 1.0)
    ensures exists jitters :: InRange(jitters, |thresholds|, pct)
                              && sched == Schedule(FirePoints(ttl, perMs, inserted, thresholds, jitters), 0)
  {
    var wireMs := WireMs(ttl);
    var maxJitterMs := Product(wireMs, pct);
    var fireAt: seq<int> := [];
    ghost var jitters: seq<real> := [];
    for i := 0 to |thresholds|
      invariant InRange(jitters, i, pct) && fireAt == FirePoints(ttl, perMs, inserted, thresholds[..i], jitters)
    {
      hide FirePoint, TicksOf, Offset, Product, WireMs;
      var offsetMs := Offset(wireMs, thresholds[i], maxJitterMs, draws[i]);
      ghost var jitter := OffsetIsFraction(ttl, perMs, inserted, thresholds[i], pct, draws[i]);
      fireAt := fireAt + [inserted + TicksOf(offsetMs, perMs)];
      PointsSnoc(ttl, perMs, inserted, thresholds, jitters, i, jitter);
      jitters := jitters + [jitter];
    }
    assert thresholds[..|thresholds|] == thresholds;
    sched := Schedule(fireAt, 0);
  }

  function WireMs(ttl: u32): real { ttl as real * 1000.0 }

  function Product(x: real, y: real): real { x * y }

  function TicksOf(ms: real, perMs: nat): int { Trunc(Product(ms, perMs as real)) }

  function Offset(wireMs: real, threshold: real, maxJitterMs: real, draw: real): real {
    if maxJitterMs > 0.0 then wireMs * threshold + draw * maxJitterMs else wireMs * threshold
  }

  lemma PointsSnoc(ttl: u32, perMs: nat, inserted: int, thresholds: seq<real>, jitters: seq<real>, i: nat, jitter: real)
    requires i < |thresholds| && |jitters| == i
    ensures FirePoints(ttl, perMs, inserted, thresholds[..i + 1], jitters + [jitter])
         == FirePoints(ttl, perMs, inserted, thresholds[..i], jitters)
            + [FirePoint(ttl, perMs, inserted, thresholds[i], jitter)]
  {
    hide FirePoint;
  }

  lemma OffsetIsFraction(ttl: u32, perMs: nat, inserted: int, threshold: real, pct: real, draw: real)
    returns (jitter: real)
    requires 0.0 <= draw <= 1.0 && pct >= 0.0
    ensures var wire := WireMs(ttl);
            inserted + TicksOf(Offset(wire, threshold, Product(wire, pct), draw), perMs)
              == FirePoint(ttl, perMs, inserted, threshold, jitter)
    ensures 0.0 <= jitter <= pct
  {
    var wire := WireMs(ttl);
    jitter := if Product(wire, pct) > 0.0 then Product(draw, pct) else 0.0;
    DrawInRange(draw, pct);
    OffsetScales(wire, threshold, pct, draw, jitter, perMs as real);
    LifetimeReal(ttl, perMs);
    hide Trunc, Product, Offset;
    var o := Offset(wire, threshold, Product(wire, pct), draw);
    assert Product(o, perMs as real) == Scaled(Lifetime(ttl, perMs), threshold + jitter);
  }

  lemma DrawInRange(draw: real, pct: real)
    requires 0.0 <= draw <= 1.0 && pct >= 0.0
    ensures 0.0 <= Product(draw, pct) <= pct
  {
    ProductNonNegative(draw, pct);
    ProductNonNegative(1.0 - draw, pct);
    assert Product(1.0 - draw, pct) == pct - Product(draw, pct);
  }

  lemma ProductIs(x: real, y: real)
    ensures Product(x, y) == x * y
  {
  }

  lemma ProductNonNegative(x: real, y: real)
    requires x >= 0.0 && y >= 0.0
    ensures Product(x, y) >= 0.0
  {
  }

  lemma LifetimeReal(ttl: u32, perMs: nat)
    ensures Lifetime(ttl, perMs) as real == Product(WireMs(ttl), perMs as real)
  {
    assert (ttl * 1000) as real == ttl as real * 1000.0;
  }

  lemma OffsetScales(wire: real, threshold: real, pct: real, draw: real, jitter: real, perMs: real)
    requires jitter == if Product(wire, pct) > 0.0 then Product(draw, pct) else 0.0
    ensures Product(Offset(wire, threshold, Product(wire, pct), draw), perMs)
         == Product(wire, perMs) * (threshold + jitter)
  {
    assert draw * (wire * pct) == wire * (draw * pct);
    var o := Offset(wire, threshold, Product(wire, pct), draw);
    assert o == wire * threshold + wire * jitter == wire * (threshold + jitter);
    assert o * perMs == wire * perMs * (threshold + jitter);
  }

  ghost predicate NonDecreasing(ps: seq<int>) {
    forall i, j :: 0 <= i < j < |ps| ==> ps[i] <= ps[j]
  }

  /** Gaps between thresholds are at least the jitter fraction. */
  ghost predicate Spaced(thresholds: seq<real>, pct: real) {
    forall i :: 0 <= i < |thresholds| - 1 ==> thresholds[i] + pct <= thresholds[i + 1]
  }

  lemma {:induction false} SpacedApart(thresholds: seq<real>, pct: real, i: nat, j: nat)
    requires Spaced(thresholds, pct) && pct >= 0.0 && i < j < |thresholds|
    ensures thresholds[i] + pct <= thresholds[j]
    decreases j
  {
    if i + 1 < j {
      SpacedApart(thresholds, pct, i, j - 1);
    }
  }

  lemma FirePointMonotone(ttl: u32, perMs: nat, inserted: int, x: real, y: real)
    requires x <= y
    ensures FirePoint(ttl, perMs, inserted, x, 0.0) <= FirePoint(ttl, perMs, inserted, y, 0.0)
  {
    hide Scaled, Trunc, Lifetime;
    var w := Lifetime(ttl, perMs);
    ScaledMonotone(w, x + 0.0, y + 0.0);
    TruncMonotone(Scaled(w, x + 0.0), Scaled(w, y + 0.0));
  }

  lemma FirePointShift(ttl: u32, perMs: nat, inserted: int, t: real, jitter: real)
    ensures FirePoint(ttl, perMs, inserted, t, jitter) == FirePoint(ttl, perMs, inserted, t + jitter, 0.0)
  {
  }

  /** With thresholds far enough apart the points come in order, whatever the jitter. */
  lemma PointsInOrder(ttl: u32, perMs: nat, inserted: int, thresholds: seq<real>, pct: real, jitters: seq<real>)
    requires InRange(jitters, |thresholds|, pct) && pct >= 0.0 && Spaced(thresholds, pct)
    ensures NonDecreasing(FirePoints(ttl, perMs, inserted, thresholds, jitters))
  {
    var ps := FirePoints(ttl, perMs, inserted, thresholds, jitters);
    forall i, j | 0 <= i < j < |ps|
      ensures ps[i] <= ps[j]
    {
      SpacedApart(thresholds, pct, i, j);
      FirePointShift(ttl, perMs, inserted, thresholds[i], jitters[i]);
      FirePointShift(ttl, perMs, inserted, thresholds[j], jitters[j]);
      FirePointMonotone(ttl, perMs, inserted, thresholds[i] + jitters[i], thresholds[j] + jitters[j]);
    }
  }

  /** The earliest and the latest point jitter can give. */
  ghost predicate Overlap(ttl: u32, perMs: nat, inserted: int, t: real, u: real, pct: real) {
    FirePoint(ttl, perMs, inserted, t, pct) > FirePoint(ttl, perMs, inserted, u, 0.0)
  }

  ghost predicate AlwaysInOrder(ttl: u32, perMs: nat, inserted: int, thresholds: seq<real>, pct: real) {
    forall jitters :: InRange(jitters, |thresholds|, pct) ==>
      NonDecreasing(FirePoints(ttl, perMs, inserted, thresholds, jitters))
  }

  /** Exactly when every jitter gives ordered points: no threshold's latest point lies
      behind a later threshold's earliest. */
  lemma OrderIsExact(ttl: u32, perMs: nat, inserted: int, thresholds: seq<real>, pct: real)
    requires pct >= 0.0
    ensures AlwaysInOrder(ttl, perMs, inserted, thresholds, pct) <==>
            forall i, j :: 0 <= i < j < |thresholds| ==>
              !Overlap(ttl, perMs, inserted, thresholds[i], thresholds[j], pct)
  {
    if !AlwaysInOrder(ttl, perMs, inserted, thresholds, pct) {
      var jitters :| && InRange(jitters, |thresholds|, pct)
                     && !NonDecreasing(FirePoints(ttl, perMs, inserted, thresholds, jitters));
      var ps := FirePoints(ttl, perMs, inserted, thresholds, jitters);
      var i, j :| 0 <= i < j < |ps| && ps[i] > ps[j];
      FirePointRange(ttl, perMs, inserted, thresholds[i], jitters[i], pct);
      FirePointRange(ttl, perMs, inserted, thresholds[j], jitters[j], pct);
      assert Overlap(ttl, perMs, inserted, thresholds[i], thresholds[j], pct);
    }
    if i, j :| 0 <= i < j < |thresholds| && Overlap(ttl, perMs, inserted, thresholds[i], thresholds[j], pct) {
      var jitters := seq(|thresholds|, k => if k == i then pct else 0.0);
      var ps := FirePoints(ttl, perMs, inserted, thresholds, jitters);
      assert InRange(jitters, |thresholds|, pct);
      assert ps[i] > ps[j];
    }
  }

  lemma FirePointRange(ttl: u32, perMs: nat, inserted: int, t: real, jitter: real, pct: real)
    requires 0.0 <= jitter <= pct
    ensures FirePoint(ttl, perMs, inserted, t, 0.0) <= FirePoint(ttl, perMs, inserted, t, jitter)
         <= FirePoint(ttl, perMs, inserted, t, pct)
  {
    FirePointShift(ttl, perMs, inserted, t, jitter);
    FirePointShift(ttl, perMs, inserted, t, pct);
    FirePointMonotone(ttl, perMs, inserted, t, t + jitter);
    FirePointMonotone(ttl, perMs, inserted, t + jitter, t + pct);
  }

  /** Whatever the jitter, a point lies strictly before the record expires exactly if
      the threshold plus the jitter fraction is below one. */
  lemma BeforeExpiryIsExact(ttl: u32, perMs: nat, inserted: int, threshold: real, pct: real)
    requires ttl > 0 && perMs > 0 && pct >= 0.0
    ensures threshold + pct < 1.0 <==>
            forall jitter :: 0.0 <= jitter <= pct ==>
              FirePoint(ttl, perMs, inserted, threshold, jitter) < inserted + Lifetime(ttl, perMs)
  {
    hide Scaled, Trunc, Lifetime;
    var w := Lifetime(ttl, perMs);
    LifetimePositive(ttl, perMs);
    forall jitter | 0.0 <= jitter <= pct
      ensures FirePoint(ttl, perMs, inserted, threshold, jitter) < inserted + w <==> threshold + jitter < 1.0
    {
      TruncBelow(Scaled(w, threshold + jitter), w);
      ScaledBelow(w, threshold + jitter);
    }
    assert FirePoint(ttl, perMs, inserted, threshold, pct) < inserted + w <==> threshold + pct < 1.0;
    hide FirePoint;
  }

  lemma LifetimePositive(ttl: u32, perMs: nat)
    requires ttl > 0 && perMs > 0
    ensures Lifetime(ttl, perMs) > 0
  {
    assert ttl * 1000 * perMs >= 1 * perMs;
  }

  // ---------------------------------------------------------------- consuming due points

  /** Consumption stops at the first point still in the future. */
  function Consume(s: Schedule, now: int): Schedule
    decreases |s.fireAt| - s.next
  {
    if s.next < |s.fireAt| && s.fireAt[s.next] <= now then Consume(s.(next := s.next + 1), now) else s
  }

  /** The points not handed out yet. */
  function Remaining(s: Schedule): seq<int> {
    if s.next < |s.fireAt| then s.fireAt[s.next..] else []
  }

  /** next_refresh_point: the first of the remaining points, which then remain no more. */
  method NextRefreshPoint(s: Schedule) returns (s': Schedule, point: Option<int>)
    ensures point == if Remaining(s) == [] then None else Some(Remaining(s)[0])
    ensures Remaining(s') == if Remaining(s) == [] then [] else Remaining(s)[1..]
    ensures s'.fireAt == s.fireAt
    ensures (s', point) == Next(s)
  {
    if s.next >= |s.fireAt| {
      return s, None;
    }
    return s.(next := s.next + 1), Some(s.fireAt[s.next]);
  }

  function Next(s: Schedule): (Schedule, Option<int>) {
    if Pending(s) then (s.(next := s.next + 1), Some(s.fireAt[s.next])) else (s, None)
  }

  /** What `n` calls of next_refresh_point return. */
  function Drawn(s: Schedule, n: nat): seq<Option<int>>
    decreases n
  {
    if n == 0 then [] else [Next(s).1] + Drawn(Next(s).0, n - 1)
  }

  /** Every remaining point is handed out once and in order; after the last one come
      only empty results. */
  lemma {:induction false} PointsComeOnce(s: Schedule, n: nat, i: nat)
    requires i < n
    ensures |Drawn(s, n)| == n
    ensures Drawn(s, n)[i] == if i < |Remaining(s)| then Some(Remaining(s)[i]) else None
    decreases n
  {
    if i > 0 {
      PointsComeOnce(Next(s).0, n - 1, i - 1);
    } else if n > 1 {
      PointsComeOnce(Next(s).0, n - 1, 0);
    }
  }

  /** The number of points due at `now`. */
  function DueCount(ps: seq<int>, now: int): (n: nat)
    ensures n <= |ps|
  {
    if ps == [] then 0 else DueCount(ps[..|ps| - 1], now) + if ps[|ps| - 1] <= now then 1 else 0
  }

  lemma {:induction false} DueIsPrefix(ps: seq<int>, now: int)
    requires NonDecreasing(ps)
    ensures forall i :: 0 <= i < |ps| ==> (ps[i] <= now <==> i < DueCount(ps, now))
  {
    if ps != [] {
      var k := |ps| - 1;
      DueIsPrefix(ps[..k], now);
      assert forall i :: 0 <= i < k ==> ps[..k][i] == ps[i];
    }
  }

  /** A tick consumes exactly the due points not consumed before. */
  lemma {:induction false} ConsumeCounts(s: Schedule, now: int)
    requires NonDecreasing(s.fireAt)
    ensures Consume(s, now).fireAt == s.fireAt
    ensures Consume(s, now).next == if s.next <= DueCount(s.fireAt, now) then DueCount(s.fireAt, now) else s.next
    decreases |s.fireAt| - s.next
  {
    DueIsPrefix(s.fireAt, now);
    if s.next < |s.fireAt| && s.fireAt[s.next] <= now {
      ConsumeCounts(s.(next := s.next + 1), now);
    }
  }

  /** A tick sends something for a schedule exactly if its next point is due. */
  lemma SendsIffDue(s: Schedule, now: int)
    ensures Consume(s, now).next > s.next <==> Pending(s) && NextPoint(s) <= now
    ensures Consume(s, now).next >= s.next
    decreases |s.fireAt| - s.next
  {
    if Pending(s) && NextPoint(s) <= now {
      SendsIffDue(s.(next := s.next + 1), now);
    }
  }

  function Ticks(s: Schedule, times: seq<int>): Schedule {
    if times == [] then s else Consume(Ticks(s, times[..|times| - 1]), times[|times| - 1])
  }

  /** Over any run of ticks every point is consumed once, by the first tick at or after
      it: after a tick at time t exactly the points up to t are consumed. */
  lemma {:induction false} TicksConsumeOnce(ps: seq<int>, times: seq<int>)
    requires NonDecreasing(ps) && NonDecreasing(times) && times != []
    ensures Ticks(Schedule(ps, 0), times) == Schedule(ps, DueCount(ps, times[|times| - 1]))
  {
    var k := |times| - 1;
    if k == 0 {
      assert times[..0] == [];
      ConsumeCounts(Schedule(ps, 0), times[0]);
    } else {
      TicksConsumeOnce(ps, times[..k]);
      DueGrows(ps, times[k - 1], times[k]);
      ConsumeCounts(Schedule(ps, DueCount(ps, times[k - 1])), times[k]);
    }
  }

  lemma {:induction false} DueGrows(ps: seq<int>, t: int, u: int)
    requires t <= u
    ensures DueCount(ps, t) <= DueCount(ps, u)
  {
    if ps != [] {
      DueGrows(ps[..|ps| - 1], t, u);
    }
  }

  ghost predicate NoneDue(s: Schedule, now: int) {
    forall i :: s.next <= i < |s.fireAt| ==> s.fireAt[i] > now
  }

  /** A tick leaves nothing due, at whatever time it comes, exactly if the points are in order. */
  lemma NoneLeftDueIsExact(ps: seq<int>)
    ensures NonDecreasing(ps) <==> forall now :: NoneDue(Consume(Schedule(ps, 0), now), now)
  {
    if NonDecreasing(ps) {
      forall now
        ensures NoneDue(Consume(Schedule(ps, 0), now), now)
      {
        ConsumeCounts(Schedule(ps, 0), now);
        DueIsPrefix(ps, now);
      }
    } else {
      var i, j :| 0 <= i < j < |ps| && ps[i] > ps[j];
      ConsumeStops(Schedule(ps, 0), ps[j], i);
      assert !NoneDue(Consume(Schedule(ps, 0), ps[j]), ps[j]);
    }
  }

  lemma {:induction false} ConsumeStops(s: Schedule, now: int, i: nat)
    requires s.next <= i < |s.fireAt| && s.fireAt[i] > now
    ensures Consume(s, now).fireAt == s.fireAt && Consume(s, now).next <= i
    decreases |s.fireAt| - s.next
  {
    if s.fireAt[s.next] <= now {
      ConsumeStops(s.(next := s.next + 1), now, i);
    }
  }

  // ---------------------------------------------------------------- back-off

  datatype Options = Options(initial: int, multiplier: real, max: int)

  datatype Backoff = Backoff(first: bool, current: int)

  function Grown(o: Options, current: int): int {
    var next := Trunc(Product(current as real, o.multiplier));
    if next < o.max then next else o.max
  }

  /** advance_backoff: the interval returned is the one stored. */
  function Advance(b: Backoff, o: Options): Backoff {
    if b.first then Backoff(false, o.initial) else Backoff(false, Grown(o, b.current))
  }

  method AdvanceBackoff(b: Backoff, o: Options) returns (b': Backoff, interval: int)
    ensures b' == Advance(b, o) && interval == b'.current
    ensures !b.first ==> interval <= o.max
  {
    if b.first {
      b' := Backoff(false, o.initial);
      return b', b'.current;
    }
    var next := Trunc(Product(b.current as real, o.multiplier));
    b' := b.(current := if next < o.max then next else o.max);
    return b', b'.current;
  }

  /** The n-th interval waited, counting from zero. */
  function Interval(o: Options, n: nat): int {
    if n == 0 then o.initial else Grown(o, Interval(o, n - 1))
  }

  lemma {:induction false} AdvanceGivesIntervals(o: Options, n: nat)
    ensures Advanced(o, n + 1) == Backoff(false, Interval(o, n))
  {
    if n > 0 {
      AdvanceGivesIntervals(o, n - 1);
    }
  }

  function Advanced(o: Options, n: nat): Backoff {
    if n == 0 then Backoff(true, 0) else Advance(Advanced(o, n - 1), o)
  }

  lemma GrownBounds(o: Options, c: int)
    requires o.multiplier >= 1.0 && 0 <= c <= o.max
    ensures c <= Grown(o, c) <= o.max
    ensures c < o.max ==> (Grown(o, c) > c <==> Product(c as real, o.multiplier - 1.0) >= 1.0)
  {
    var x := Product(c as real, o.multiplier);
    assert x - c as real == Product(c as real, o.multiplier - 1.0) by {
      assert c as real * (o.multiplier - 1.0) == c as real * o.multiplier - c as real;
    }
    assert Product(c as real, o.multiplier - 1.0) >= 0.0;
    hide Product;
    TruncBelow(x, c + 1);
  }

  /** Each interval is the one before times the multiplier, in whole milliseconds, or the
      maximum if that is not more. */
  lemma IntervalIsExact(o: Options, n: nat)
    requires o.multiplier >= 0.0 && Interval(o, n) >= 0
    ensures Interval(o, 0) == o.initial
    ensures var x, next := Interval(o, n) as real * o.multiplier, Interval(o, n + 1);
            if x >= o.max as real then next == o.max
            else next <= o.max && next as real <= x < next as real + 1.0
  {
    hide Trunc, Product;
    var c := Interval(o, n);
    ProductNonNegative(c as real, o.multiplier);
    assert Product(c as real, o.multiplier) == c as real * o.multiplier by { ProductIs(c as real, o.multiplier); }
    TruncIsExact(Product(c as real, o.multiplier));
  }

  /** Intervals never shrink and never exceed the maximum. */
  lemma {:induction false} IntervalsGrow(o: Options, n: nat)
    requires o.multiplier >= 1.0 && 0 <= o.initial <= o.max
    ensures o.initial <= Interval(o, n) <= Interval(o, n + 1) <= o.max
  {
    if n > 0 {
      IntervalsGrow(o, n - 1);
    }
    GrownBounds(o, Interval(o, n));
  }

  /** Only the very first interval can exceed the maximum. */
  lemma CapIsExact(o: Options)
    ensures (forall n: nat :: Interval(o, n) <= o.max) <==> o.initial <= o.max
  {
    assert Interval(o, 0) == o.initial;
  }

  ghost predicate ReachesMax(o: Options) { exists n: nat :: Interval(o, n) == o.max }

  /** Back-off reaches its maximum exactly if the first step gains a whole millisecond;
      otherwise truncation holds it at the initial interval for ever. */
  lemma ReachIsExact(o: Options)
    requires o.multiplier >= 1.0 && 0 <= o.initial < o.max
    ensures ReachesMax(o) <==> Product(o.initial as real, o.multiplier - 1.0) >= 1.0
  {
    if Product(o.initial as real, o.multiplier - 1.0) >= 1.0 {
      var n := ClimbsToMax(o, 0);
    } else if ReachesMax(o) {
      var n: nat :| Interval(o, n) == o.max;
      StuckAtInitial(o, n);
    }
  }

  /** One and a half times one millisecond is one millisecond. */
  lemma StuckExample(max: int)
    requires max > 1
    ensures !ReachesMax(Options(1, 1.5, max))
  {
    ReachIsExact(Options(1, 1.5, max));
  }

  lemma {:induction false} StuckAtInitial(o: Options, n: nat)
    requires o.multiplier >= 1.0 && 0 <= o.initial < o.max && Product(o.initial as real, o.multiplier - 1.0) < 1.0
    ensures Interval(o, n) == o.initial
  {
    GrownBounds(o, o.initial);
    if n > 0 {
      StuckAtInitial(o, n - 1);
    }
  }

  lemma {:induction false} ClimbsToMax(o: Options, k: nat) returns (n: nat)
    requires o.multiplier >= 1.0 && 0 <= o.initial < o.max && Product(o.initial as real, o.multiplier - 1.0) >= 1.0
    ensures Interval(o, n) == o.max
    decreases o.max - Interval(o, k)
  {
    IntervalsGrow(o, k);
    var c := Interval(o, k);
    if c == o.max {
      n := k;
    } else {
      GrownBounds(o, c);
      ProductMonotone(o.initial as real, c as real, o.multiplier - 1.0);
      n := ClimbsToMax(o, k + 1);
    }
  }

  lemma ProductMonotone(x: real, y: real, m: real)
    requires x <= y && m >= 0.0
    ensures Product(x, m) <= Product(y, m)
  {
    assert (y - x) * m >= 0.0;
  }

  // ---------------------------------------------------------------- the scheduler

  datatype Mode = Observe | TtlRefresh | Discover

  type Key = seq<byte>

  type Watches = map<Name, Backoff>

  type Refreshes = map<Key, Schedule>

  /** arm_scheduler's own look ahead at the next interval. */
  function Peek(b: Backoff, o: Options): int {
    if b.first then o.initial
    else
      var next := Trunc(Product(b.current as real, o.multiplier));
      if next < o.max then next else o.max
  }

  lemma PeekIsNext(b: Backoff, o: Options)
    ensures Peek(b, o) == Advance(b, o).current
  {
  }

  predicate Pending(s: Schedule) { s.next < |s.fireAt| }

  function NextPoint(s: Schedule): int
    requires Pending(s)
  {
    s.fireAt[s.next]
  }

  function Deadline(b: Backoff, o: Options, now: int, perMs: nat): int { now + Peek(b, o) * perMs }

  /** Everything the scheduler must wake up for. */
  ghost function QueryDeadlines(mode: Mode, watches: Watches, o: Options, now: int, perMs: nat): set<int> {
    if mode == Discover then set t | t in watches :: Deadline(watches[t], o, now, perMs) else {}
  }

  ghost function RefreshDeadlines(mode: Mode, refreshes: Refreshes): set<int> {
    if mode == Observe then {} else set k | k in refreshes && Pending(refreshes[k]) :: NextPoint(refreshes[k])
  }

  ghost function Deadlines(mode: Mode, watches: Watches, refreshes: Refreshes, o: Options, now: int, perMs: nat)
    : set<int>
  {
    QueryDeadlines(mode, watches, o, now, perMs) + RefreshDeadlines(mode, refreshes)
  }

  /** What the scheduler wakes up for: the next query of every type, if it discovers, and
      the next point of every schedule that has one, unless it only observes. */
  lemma DeadlinesAreExact(mode: Mode, watches: Watches, refreshes: Refreshes, o: Options, now: int, perMs: nat, d: int)
    ensures d in Deadlines(mode, watches, refreshes, o, now, perMs) <==>
            || (mode == Discover && exists t :: t in watches && d == now + Advance(watches[t], o).current * perMs)
            || (mode != Observe && exists k :: k in refreshes && refreshes[k].next < |refreshes[k].fireAt|
                                               && d == refreshes[k].fireAt[refreshes[k].next])
  {
    hide Trunc, Product;
    assert forall b :: Deadline(b, o, now, perMs) == now + Advance(b, o).current * perMs;
    hide Deadline, Advance;
  }

  /** The least element, if there is one. */
  ghost predicate Earliest(t: Option<int>, ds: set<int>) {
    match t
    case None => ds == {}
    case Some(x) => x in ds && forall d :: d in ds ==> x <= d
  }

  /** Whole milliseconds until `next`, and none if it has passed. */
  function Delay(next: int, now: int, perMs: nat): nat
    requires perMs > 0
  {
    if next <= now then 0 else (next - now) / perMs
  }

  method EarliestQuery(watches: Watches, o: Options, now: int, perMs: nat) returns (next: Option<int>)
    ensures Earliest(next, QueryDeadlines(Discover, watches, o, now, perMs))
  {
    next := None;
    var left := watches.Keys;
    ghost var done: set<Name> := {};
    while left != {}
      invariant left <= watches.Keys && done == watches.Keys - left
      invariant Earliest(next, set t | t in done :: Deadline(watches[t], o, now, perMs))
    {
      hide Deadline;
      var t :| t in left;
      var d := Deadline(watches[t], o, now, perMs);
      ghost var before := set t | t in done :: Deadline(watches[t], o, now, perMs);
      left, done := left - {t}, done + {t};
      assert (set t | t in done :: Deadline(watches[t], o, now, perMs)) == before + {d};
      next := if next.None? || d < next.value then Some(d) else next;
    }
    assert done == watches.Keys;
  }

  ghost function Points(refreshes: Refreshes, ks: set<Key>): set<int> {
    set k | k in ks && k in refreshes && Pending(refreshes[k]) :: NextPoint(refreshes[k])
  }

  method EarliestRefresh(refreshes: Refreshes, start: Option<int>, ghost ds: set<int>) returns (next: Option<int>)
    requires Earliest(start, ds)
    ensures Earliest(next, ds + RefreshDeadlines(Discover, refreshes))
  {
    next := start;
    var left := refreshes.Keys;
    assert ds + Points(refreshes, {}) == ds;
    while left != {}
      invariant left <= refreshes.Keys && Earliest(next, ds + Points(refreshes, refreshes.Keys - left))
    {
      var k :| k in left;
      var s := refreshes[k];
      ghost var before := Points(refreshes, refreshes.Keys - left);
      assert refreshes.Keys - (left - {k}) == refreshes.Keys - left + {k};
      left := left - {k};
      assert Points(refreshes, refreshes.Keys - left) == before + (if Pending(s) then {NextPoint(s)} else {});
      if Pending(s) && (next.None? || NextPoint(s) < next.value) {
        next := Some(NextPoint(s));
      }
    }
    assert refreshes.Keys - left == refreshes.Keys;
    assert Points(refreshes, refreshes.Keys) == RefreshDeadlines(Discover, refreshes);
  }

  /** The delay is that of the earliest deadline, or one second if there is none. */
  ghost predicate ArmedFor(delay: nat, ds: set<int>, now: int, perMs: nat)
    requires perMs > 0
  {
    if ds == {} then delay == 1000
    else exists d :: d in ds && (forall e :: e in ds ==> d <= e) && delay == Delay(d, now, perMs)
  }

  /** arm_scheduler: the delay is that of the earliest deadline, or one second if there is none. */
  method ArmScheduler(mode: Mode, watches: Watches, refreshes: Refreshes, o: Options, now: int, perMs: nat)
    returns (delay: nat)
    requires perMs > 0
    ensures ArmedFor(delay, Deadlines(mode, watches, refreshes, o, now, perMs), now, perMs)
  {
    hide QueryDeadlines, RefreshDeadlines;
    var next: Option<int> := None;
    NoQueries(mode, watches, refreshes, o, now, perMs);
    if mode == Discover {
      next := EarliestQuery(watches, o, now, perMs);
    }
    if mode == Discover || mode == TtlRefresh {
      next := EarliestRefresh(refreshes, next, QueryDeadlines(mode, watches, o, now, perMs));
    }
    assert Earliest(next, Deadlines(mode, watches, refreshes, o, now, perMs));
    if next.None? {
      next := Some(now + 1000 * perMs);
      WholeSecond(now, perMs);
    }
    delay := Delay(next.value, now, perMs);
  }

  lemma NoQueries(mode: Mode, watches: Watches, refreshes: Refreshes, o: Options, now: int, perMs: nat)
    ensures mode != Discover ==> QueryDeadlines(mode, watches, o, now, perMs) == {}
    ensures mode == Observe ==> RefreshDeadlines(mode, refreshes) == {}
    ensures mode != Observe ==> RefreshDeadlines(mode, refreshes) == RefreshDeadlines(Discover, refreshes)
  {
  }

  lemma WholeSecond(now: int, perMs: nat)
    requires perMs > 0
    ensures Delay(now + 1000 * perMs, now, perMs) == 1000
  {
    QuotientBelow(1000 * perMs, 1000, perMs);
    QuotientBelow(1000 * perMs, 1001, perMs);
  }

  /** The timer never fires after a deadline that is still ahead, and less than a
      millisecond before it. */
  lemma WakesInTime(d: int, now: int, perMs: nat)
    requires perMs > 0 && now <= d
    ensures var delay := Delay(d, now, perMs); now + delay * perMs <= d < now + (delay + 1) * perMs
  {
    var x, q := d - now, (d - now) / perMs;
    QuotientBelow(x, q, perMs);
    QuotientBelow(x, q + 1, perMs);
  }

  /** The documented one-second ceiling on the delay holds exactly when nothing is
      scheduled or something falls within the next 1001 milliseconds, the delay being cut
      to whole milliseconds. */
  lemma CeilingIsExact(ds: set<int>, d: int, now: int, perMs: nat)
    requires perMs > 0 && d in ds && forall e :: e in ds ==> d <= e
    ensures Delay(d, now, perMs) <= 1000 <==> exists e :: e in ds && e < now + 1001 * perMs
  {
    if d > now {
      QuotientBelow(d - now, 1001, perMs);
    }
  }

  /** One type watched with an initial interval of five seconds: so is the delay. */
  lemma LongDelay(t: Name, now: int, perMs: nat)
    requires perMs > 0
    ensures var o := Options(5000, 2.0, 60000);
            Deadlines(Discover, map[t := Backoff(true, 0)], map[], o, now, perMs) == {now + 5000 * perMs}
    ensures Delay(now + 5000 * perMs, now, perMs) == 5000
  {
    var o, watches := Options(5000, 2.0, 60000), map[t := Backoff(true, 0)];
    assert t in watches && Deadline(watches[t], o, now, perMs) == now + 5000 * perMs;
    QuotientBelow(5000 * perMs, 5000, perMs);
    QuotientBelow(5000 * perMs, 5001, perMs);
  }

  lemma QuotientBelow(x: int, n: int, m: int)
    requires x >= 0 && m > 0
    ensures x / m < n <==> x < n * m
  {
    var q := x / m;
    Division(x, m);
    if q < n {
      TimesMonotone(q + 1, n, m);
    } else {
      TimesMonotone(n, q, m);
    }
  }

  lemma Division(x: int, m: int)
    requires m > 0
    ensures x / m * m <= x < (x / m + 1) * m
  {
  }

  lemma TimesMonotone(a: int, b: int, m: int)
    requires a <= b && m >= 0
    ensures a * m <= b * m
  {
  }

  // ---------------------------------------------------------------- a tick

  function AllAdvanced(watches: Watches, o: Options): Watches {
    map t | t in watches :: Advance(watches[t], o)
  }

  function AllConsumed(refreshes: Refreshes, now: int): Refreshes {
    map k | k in refreshes :: Consume(refreshes[k], now)
  }

  /** One query is sent for each point consumed. */
  method ConsumeDue(s: Schedule, now: int) returns (s': Schedule, sent: nat)
    ensures s' == Consume(s, now) && sent == s'.next - s.next
  {
    s', sent := s, 0;
    while s'.next < |s'.fireAt| && s'.fireAt[s'.next] <= now
      invariant Consume(s', now) == Consume(s, now) && sent == s'.next - s.next
      decreases |s'.fireAt| - s'.next
    {
      s', sent := s'.(next := s'.next + 1), sent + 1;
    }
  }
}
