/** Time bases, comparison and conversion of timestamps. */
module Timestamps {

  const INT64_MAX: int := 0x7fff_ffff_ffff_ffff
  const NOPTS: int := -0x8000_0000_0000_0000

  type Positive = n: int | n > 0 witness 1

  /** A rational number of seconds per tick. */
  datatype TimeBase = TimeBase(num: Positive, den: Positive)

  /** A timestamp with its time base. */
  datatype Timestamp = Timestamp(ts: int, tb: TimeBase)

  /** The point in time a timestamp denotes. */
  ghost function Seconds(t: Timestamp): real {
    (t.ts * t.tb.num) as real / t.tb.den as real
  }

  /** Compares two timestamps: negative, zero or positive. */
  function CompareTs(a: Timestamp, b: Timestamp): int {
    var x := a.ts * (a.tb.num * b.tb.den);
    var y := b.ts * (b.tb.num * a.tb.den);
    if x > y then 1 else if x < y then -1 else 0
  }

  lemma CrossMultiply(x: int, y: int, a: Positive, b: Positive)
    ensures x as real / a as real < y as real / b as real <==> x * b < y * a
    ensures x as real / a as real == y as real / b as real <==> x * b == y * a
  {
    var l, r := x as real / a as real, y as real / b as real;
    var ra, rb := a as real, b as real;
    assert l * ra == x as real && r * rb == y as real;
    assert l * ra * rb == (x * b) as real;
    assert r * rb * ra == (y * a) as real;
    assert (l < r) <==> l * (ra * rb) < r * (ra * rb);
  }

  /** The comparison is exact, whatever the two time bases. */
  lemma CompareExact(a: Timestamp, b: Timestamp)
    ensures CompareTs(a, b) < 0 <==> Seconds(a) < Seconds(b)
    ensures CompareTs(a, b) == 0 <==> Seconds(a) == Seconds(b)
    ensures CompareTs(a, b) > 0 <==> Seconds(a) > Seconds(b)
  {
    var x, y := a.ts * a.tb.num, b.ts * b.tb.num;
    CrossMultiply(x, y, a.tb.den, b.tb.den);
    assert a.ts * (a.tb.num * b.tb.den) == x * b.tb.den;
    assert b.ts * (b.tb.num * a.tb.den) == y * a.tb.den;
  }

  lemma DivFloor(n: int, c: Positive)
    ensures n / c * c <= n < n / c * c + c
  {
    assert n == n / c * c + n % c;
  }

  lemma MulMonotone(a: int, b: int, c: Positive)
    requires a <= b
    ensures a * c <= b * c
  {
    assert 0 <= (b - a) * c;
  }

  /** The comparison made when the products could overflow: each side rounded down to the other's ticks. */
  function CompareWide(a: Timestamp, b: Timestamp): int {
    var p, q := a.tb.num * b.tb.den, b.tb.num * a.tb.den;
    if a.ts * p / q < b.ts then -1 else if b.ts * q / p < a.ts then 1 else 0
  }

  lemma FloorBelow(x: int, q: Positive, n: int)
    ensures x / q < n <==> x < n * q
  {
    DivFloor(x, q);
    var d: int := x / q;
    assert (d + 1) * q == d * q + q;
    if d < n {
      MulMonotone(d + 1, n, q);
    } else {
      MulMonotone(n, d, q);
    }
  }

  /** Both ways of comparing agree on all timestamps. */
  lemma ComparisonsAgree(a: Timestamp, b: Timestamp)
    ensures CompareWide(a, b) == CompareTs(a, b)
  {
    var p: Positive, q: Positive := a.tb.num * b.tb.den, b.tb.num * a.tb.den;
    FloorBelow(a.ts * p, q, b.ts);
    FloorBelow(b.ts * q, p, a.ts);
  }

  // ---------------------------------------------------------------- conversion between time bases

  /** `a * b / c`, rounded to the nearest integer, halfway cases away from zero. */
  function RescaleNear(a: int, b: Positive, c: Positive): int {
    if a < 0 then -((-a * b + c / 2) / c) else (a * b + c / 2) / c
  }

  /** Converts ticks of one time base into ticks of another. */
  function Rescale(a: int, from: TimeBase, to: TimeBase): int {
    RescaleNear(a, from.num * to.den, to.num * from.den)
  }

  lemma DivNear(n: int, c: Positive)
    requires n >= 0
    ensures var q := (n + c / 2) / c;
      2 * n - c <= 2 * q * c <= 2 * n + c
  {
    var m := n + c / 2;
    assert m == (m / c) * c + m % c;
    assert 2 * (c / 2) <= c <= 2 * (c / 2) + 1;
  }

  /** The rounding error is at most half a tick of the target. */
  lemma RescaleNearError(a: int, b: Positive, c: Positive)
    ensures var r := RescaleNear(a, b, c);
      2 * (a * b) - c <= 2 * (r * c) <= 2 * (a * b) + c
  {
    if a < 0 {
      var n: int := -a * b;
      var p: int := a * b;
      assert n == -p;
      DivNear(n, c);
      var q: int := (n + c / 2) / c;
      var d: int := q * c;
      assert 2 * q * c == 2 * d;
      assert -q * c == -d;
    } else {
      DivNear(a * b, c);
      var q := (a * b + c / 2) / c;
      assert 2 * q * c == 2 * (q * c);
    }
  }

  /** A multiple of `c` no further than half of `c` from zero is zero. */
  lemma OnlyZero(k: int, c: Positive)
    requires 2 * (k * c) <= c && 0 <= c + 2 * (k * c)
    ensures k == 0
  {
    if k >= 1 {
      MulMonotone(1, k, c);
    } else if k <= -1 {
      MulMonotone(k, -1, c);
    }
  }

  /** A value that has an exact counterpart is converted to it. */
  lemma RescaleNearExact(a: int, b: Positive, c: Positive, r: int)
    requires a * b == r * c
    ensures RescaleNear(a, b, c) == r
  {
    hide RescaleNear;
    RescaleNearError(a, b, c);
    var q := RescaleNear(a, b, c);
    assert (q - r) * c == q * c - r * c;
    OnlyZero(q - r, c);
  }

  /** Halfway cases go away from zero, and negative values are rounded like positive ones. */
  lemma RescaleNearTies(a: int, b: Positive, c: Positive, k: nat)
    requires a >= 0 && 2 * (a * b) == (2 * k + 1) * c
    ensures RescaleNear(a, b, c) == k + 1
  {
    var x: int := a * b;
    var y: int := k * c;
    assert (2 * k + 1) * c == 2 * y + c;
    assert x + c / 2 == y + c;
    var q, r := (x + c / 2) / c, (x + c / 2) % c;
    DivFloor(x + c / 2, c);
    assert (k + 1) * c == y + c;
    if q < k + 1 {
      MulMonotone(q + 1, k + 1, c);
    } else if q > k + 1 {
      MulMonotone(k + 2, q, c);
    }
  }

  lemma RescaleNearOdd(a: int, b: Positive, c: Positive)
    ensures RescaleNear(-a, b, c) == -RescaleNear(a, b, c)
  {
    if a == 0 {
      RescaleNearExact(0, b, c, 0);
    }
  }

  lemma RescaleZero(from: TimeBase, to: TimeBase)
    ensures Rescale(0, from, to) == 0
  {
    RescaleNearExact(0, from.num * to.den, to.num * from.den, 0);
  }

  lemma RescaleSame(a: int, tb: TimeBase)
    ensures Rescale(a, tb, tb) == a
  {
    assert tb.num * tb.den == tb.num * tb.den;
    RescaleNearExact(a, tb.num * tb.den, tb.num * tb.den, a);
  }

  // ---------------------------------------------------------------- rounding

  /** Half a tick, or nothing when no conversion takes place. */
  ghost function Slack(from: TimeBase, to: TimeBase): real {
    if from == to then 0.0 else to.num as real / (2.0 * to.den as real)
  }

  lemma SecondsAdd(a: int, b: int, tb: TimeBase)
    ensures Seconds(Timestamp(a + b, tb)) == Seconds(Timestamp(a, tb)) + Seconds(Timestamp(b, tb))
    ensures Seconds(Timestamp(a - b, tb)) == Seconds(Timestamp(a, tb)) - Seconds(Timestamp(b, tb))
  {
    var n := tb.num;
    assert (a + b) * n == a * n + b * n && (a - b) * n == a * n - b * n;
  }

  lemma SecondsOrder(a: int, b: int, tb: TimeBase)
    ensures a <= b <==> Seconds(Timestamp(a, tb)) <= Seconds(Timestamp(b, tb))
  {
    CompareExact(Timestamp(a, tb), Timestamp(b, tb));
    var k: int := tb.num * tb.den;
    assert a < b ==> a * k < b * k;
    assert a > b ==> a * k > b * k;
  }

  /** Dividing both sides of an inequality between counts by the same product of denominators. */
  lemma GapInSeconds(x: int, y: int, w: int, p: Positive, q: Positive)
    requires 2 * (x * q) - w <= 2 * (y * p) <= 2 * (x * q) + w
    ensures var s, t, h := x as real / p as real, y as real / q as real, w as real / (2.0 * (p * q) as real);
      s - h <= t <= s + h
  {
    var rp, rq := p as real, q as real;
    var m := (p * q) as real;
    var s, t, h := x as real / rp, y as real / rq, w as real / (2.0 * m);
    assert m == rp * rq;
    assert s * rp == x as real && t * rq == y as real && h * (2.0 * m) == w as real;
    assert s * m == s * rp * rq == (x * q) as real;
    assert t * m == t * rq * rp == (y * p) as real;
    assert 2.0 * (h * m) == w as real;
    assert (s - h) * m <= t * m <= (s + h) * m;
  }

  lemma FractionCancels(n: int, p: Positive, q: Positive)
    ensures (n * p) as real / (2.0 * (p * q) as real) == n as real / (2.0 * q as real)
  {
    var rp, rq := p as real, q as real;
    var h := n as real / (2.0 * rq);
    assert h * (2.0 * rq) * rp == (n * p) as real;
    assert (p * q) as real == rp * rq;
    assert h * (2.0 * (rp * rq)) == h * (2.0 * rq) * rp;
  }

  /** A conversion is off by at most half a tick of its target. */
  lemma ConversionError(a: int, from: TimeBase, to: TimeBase)
    ensures var x, y := Seconds(Timestamp(a, from)), Seconds(Timestamp(Rescale(a, from, to), to));
      x - Slack(from, to) <= y <= x + Slack(from, to)
  {
    hide RescaleNear;
    if from == to {
      RescaleSame(a, from);
    } else {
      var b: Positive, c: Positive := from.num * to.den, to.num * from.den;
      var r := RescaleNear(a, b, c);
      RescaleNearError(a, b, c);
      var n: int, d: int := from.num, to.den;
      assert a * b == (a * n) * d;
      var m: int, e: int := to.num, from.den;
      assert r * c == (r * m) * e;
      GapInSeconds(a * from.num, r * to.num, to.num * from.den, from.den, to.den);
      FractionCancels(to.num, from.den, to.den);
    }
  }

  /** Whatever is not after a timestamp is not after it when rounded to its ticks. */
  lemma RoundedNotAfter(a: Timestamp, b: Timestamp)
    requires Seconds(a) <= Seconds(b)
    ensures Rescale(a.ts, a.tb, b.tb) <= b.ts
  {
    hide RescaleNear;
    CompareExact(a, b);
    var p: Positive, c: Positive := a.tb.num * b.tb.den, b.tb.num * a.tb.den;
    var r := RescaleNear(a.ts, p, c);
    RescaleNearError(a.ts, p, c);
    assert 2 * (r * c) <= 2 * (b.ts * c) + c;
    assert (b.ts + 1) * c == b.ts * c + c;
    if r > b.ts {
      MulMonotone(b.ts + 1, r, c);
    }
  }

  // ---------------------------------------------------------------- conversion that keeps track of durations

  function RescaleDown(a: int, from: TimeBase, to: TimeBase): int {
    a * (from.num * to.den) / (to.num * from.den)
  }

  function RescaleUp(a: int, from: TimeBase, to: TimeBase): int {
    -RescaleDown(-a, from, to)
  }

  function Clip(x: int, least: int, greatest: int): int {
    if x < least then least else if x > greatest then greatest else x
  }

  /** `last`, moved if need be to within half a tick of the timestamp. */
  function Clipped(ts: int, last: int, from: TimeBase, to: TimeBase): int {
    Clip(last, RescaleDown(2 * ts - 1, from, to) / 2, (RescaleUp(2 * ts + 1, from, to) + 1) / 2)
  }

  /** A converted timestamp, and the one predicted for the next packet, in ticks of the sample clock. */
  datatype Delta = Delta(ts: int, last: int)

  /**
   Converts a timestamp of a coarse time base through the ticks of a sample clock: as long as the
   prediction `last` is plausible for the timestamp, it is used instead.
   */
  function RescaleDelta(inTb: TimeBase, inTs: int, fsTb: TimeBase, duration: nat, last: int, outTb: TimeBase): Delta {
    var simple := Delta(Rescale(inTs, inTb, outTb), Rescale(inTs, inTb, fsTb) + duration);
    if last == NOPTS || duration == 0 || inTb.num * outTb.den <= outTb.num * inTb.den then simple
    else
      var a, b := RescaleDown(2 * inTs - 1, inTb, fsTb) / 2, (RescaleUp(2 * inTs + 1, inTb, fsTb) + 1) / 2;
      if last < 2 * a - b || last > 2 * b - a then simple
      else
        var at := Clipped(inTs, last, inTb, fsTb);
        Delta(Rescale(at, fsTb, outTb), at + duration)
  }

  lemma HalfDown(n: int, at: int, c: Positive)
    requires n / c / 2 <= at
    ensures n - 2 * c <= 2 * (at * c)
  {
    DivFloor(n, c);
    var d: int := n / c;
    MulMonotone(d - 1, 2 * at, c);
    var x: int := d * c;
    assert (d - 1) * c == x - c;
    var z: int := at * c;
    assert 2 * at * c == 2 * z;
  }

  lemma HalfUp(n: int, at: int, c: Positive)
    requires at <= (-(n / c) + 1) / 2
    ensures 2 * (at * c) <= 2 * c - n
  {
    DivFloor(n, c);
    var d: int := n / c;
    MulMonotone(2 * at, 1 - d, c);
    var x: int := d * c;
    assert (1 - d) * c == c - x;
    var z: int := at * c;
    assert 2 * at * c == 2 * z;
  }

  /** A count of sample ticks between the roundings of half a tick before and half a tick after. */
  lemma BetweenHalves(ts: int, at: int, p: Positive, c: Positive)
    requires (2 * ts - 1) * p / c / 2 <= at <= (-((-(2 * ts + 1)) * p / c) + 1) / 2
    ensures 2 * (ts * p) - (p + 2 * c) <= 2 * (at * c) <= 2 * (ts * p) + (p + 2 * c)
  {
    var t: int := ts * p;
    var l: int := (2 * ts - 1) * p;
    var h: int := (-(2 * ts + 1)) * p;
    assert l == 2 * t - p && h == -(2 * t + p);
    HalfDown(l, at, c);
    HalfUp(h, at, c);
  }

  lemma SplitFraction(u: int, v: int, c: real)
    requires c > 0.0
    ensures (u + 2 * v) as real / c == u as real / c + 2.0 * (v as real / c)
  {
  }

  lemma HalvesInSeconds(x: int, y: int, n: int, m: int, p: Positive, q: Positive)
    requires 2 * (x * q) - (n * q + 2 * (m * p)) <= 2 * (y * p) <= 2 * (x * q) + (n * q + 2 * (m * p))
    ensures var s, t, h := x as real / p as real, y as real / q as real, n as real / p as real / 2.0 + m as real / q as real;
      s - h <= t <= s + h
  {
    var u: int, v: int := n * q, m * p;
    GapInSeconds(x, y, u + 2 * v, p, q);
    SplitFraction(u, v, 2.0 * (p * q) as real);
    assert p * q == q * p;
    FractionCancels(n, q, p);
    FractionCancels(m, p, q);
    HalfOf(n as real, p as real);
    HalfOf(m as real, q as real);
  }

  lemma HalfOf(a: real, b: real)
    requires b > 0.0
    ensures a / (2.0 * b) == a / b / 2.0
  {
  }

  ghost function Tick(tb: TimeBase): real {
    tb.num as real / tb.den as real
  }

  /**
   Whatever was predicted, the result is never further from the timestamp than half a tick of its
   time base and a tick of the sample clock, besides the rounding to the target.
   */
  lemma DeltaClose(inTb: TimeBase, inTs: int, fsTb: TimeBase, duration: nat, last: int, outTb: TimeBase)
    ensures var x := Seconds(Timestamp(inTs, inTb));
      var y := Seconds(Timestamp(RescaleDelta(inTb, inTs, fsTb, duration, last, outTb).ts, outTb));
      var h := Tick(inTb) / 2.0 + Tick(fsTb) + Slack(inTb, outTb) + Slack(fsTb, outTb);
      x - h <= y <= x + h
  {
    hide RescaleNear, Rescale;
    ConversionError(inTs, inTb, outTb);
    ClipClose(inTs, last, inTb, fsTb);
    ConversionError(Clipped(inTs, last, inTb, fsTb), fsTb, outTb);
  }

  lemma HalvesOrdered(ts: int, from: TimeBase, to: TimeBase)
    ensures RescaleDown(2 * ts - 1, from, to) / 2 <= (RescaleUp(2 * ts + 1, from, to) + 1) / 2
  {
    var p: Positive, c: Positive := from.num * to.den, to.num * from.den;
    var l: int := (2 * ts - 1) * p;
    var h: int := (-(2 * ts + 1)) * p;
    var t: int := ts * p;
    assert l == 2 * t - p && h == -(2 * t + p);
    DivFloor(l, c);
    DivFloor(h, c);
    var dl: int := l / c;
    var dh: int := h / c;
    var x: int := dl * c;
    var y: int := dh * c;
    if dl > -dh {
      MulMonotone(1 - dh, dl, c);
    }
  }

  /** The bounds on a moved prediction, as counts over the product of both denominators. */
  lemma ClippedBounds(ts: int, last: int, from: TimeBase, to: TimeBase)
    ensures var x, y := ts * from.num, Clipped(ts, last, from, to) * to.num;
      var w := from.num * to.den + 2 * (to.num * from.den);
      2 * (x * to.den) - w <= 2 * (y * from.den) <= 2 * (x * to.den) + w
  {
    var at := Clipped(ts, last, from, to);
    var p: Positive, c: Positive := from.num * to.den, to.num * from.den;
    HalvesOrdered(ts, from, to);
    BetweenHalves(ts, at, p, c);
    Regroup(ts, from.num, to.den);
    Regroup(at, to.num, from.den);
  }

  lemma Regroup(a: int, n: int, d: int)
    ensures (a * n) * d == a * (n * d)
  {
  }

  lemma ClipClose(ts: int, last: int, from: TimeBase, to: TimeBase)
    ensures var x, y := Seconds(Timestamp(ts, from)), Seconds(Timestamp(Clipped(ts, last, from, to), to));
      var h := Tick(from) / 2.0 + Tick(to);
      x - h <= y <= x + h
  {
    hide Clipped;
    ClippedBounds(ts, last, from, to);
    HalvesInSeconds(ts * from.num, Clipped(ts, last, from, to) * to.num, from.num, to.num, from.den, to.den);
  }

  /** Whether the timestamp is converted without regard to the prediction. */
  predicate Simple(inTb: TimeBase, inTs: int, fsTb: TimeBase, duration: nat, last: int, outTb: TimeBase) {
    || last == NOPTS || duration == 0
    || inTb.num * outTb.den <= outTb.num * inTb.den
    || Distant(inTb, inTs, fsTb, last)
  }

  /** The prediction is more than the width of the plausible interval away from it. */
  predicate Distant(inTb: TimeBase, inTs: int, fsTb: TimeBase, last: int) {
    var a, b := RescaleDown(2 * inTs - 1, inTb, fsTb) / 2, (RescaleUp(2 * inTs + 1, inTb, fsTb) + 1) / 2;
    last < a - (b - a) || last > b + (b - a)
  }

  /**
   The prediction left for the next packet is where this one ends on the sample clock: its start,
   within half a tick of its time base and a sample, or within half a sample if the timestamp alone
   was used, and then its duration.
   */
  lemma PredictsTheEnd(inTb: TimeBase, inTs: int, fsTb: TimeBase, duration: nat, last: int, outTb: TimeBase)
    ensures var d := RescaleDelta(inTb, inTs, fsTb, duration, last, outTb);
      var x, y := Seconds(Timestamp(inTs, inTb)), Seconds(Timestamp(d.last - duration, fsTb));
      && x - (Tick(inTb) / 2.0 + Tick(fsTb) + Slack(inTb, fsTb)) <= y <= x + (Tick(inTb) / 2.0 + Tick(fsTb) + Slack(inTb, fsTb))
      && (Simple(inTb, inTs, fsTb, duration, last, outTb) ==> x - Slack(inTb, fsTb) <= y <= x + Slack(inTb, fsTb))
      && (Simple(inTb, inTs, fsTb, duration, last, outTb) ==> d.ts == Rescale(inTs, inTb, outTb))
      && (!Simple(inTb, inTs, fsTb, duration, last, outTb) ==>
            && d.last - duration == Clipped(inTs, last, inTb, fsTb)
            && d.ts == Rescale(Clipped(inTs, last, inTb, fsTb), fsTb, outTb))
  {
    hide RescaleDown, RescaleUp, Rescale, Seconds;
    ConversionError(inTs, inTb, fsTb);
    ClipClose(inTs, last, inTb, fsTb);
    TickPositive(inTb);
    TickPositive(fsTb);
  }

  lemma TickPositive(tb: TimeBase)
    ensures Tick(tb) > 0.0
  {
  }

  /** A timestamp of the coarse time base, and how many samples its packet holds. */
  datatype Coarse = Coarse(ts: int, samples: Positive)

  function Samples(packets: seq<Coarse>): nat {
    if packets == [] then 0 else Samples(packets[..|packets| - 1]) + packets[|packets| - 1].samples
  }

  /** The prediction after some packets, beginning with `last`. */
  function LastAfter(inTb: TimeBase, fsTb: TimeBase, outTb: TimeBase, packets: seq<Coarse>, last: int): int {
    if packets == [] then last
    else
      var m := |packets| - 1;
      RescaleDelta(inTb, packets[m].ts, fsTb, packets[m].samples, LastAfter(inTb, fsTb, outTb, packets[..m], last), outTb).last
  }

  /** The prediction is as near as the coarse timestamp can tell. */
  predicate Plausible(inTb: TimeBase, ts: int, fsTb: TimeBase, last: int) {
    Clipped(ts, last, inTb, fsTb) == last
  }

  /** A plausible prediction is taken, and the next one is exactly one packet later. */
  lemma PredictionTaken(inTb: TimeBase, ts: int, fsTb: TimeBase, samples: Positive, last: int, outTb: TimeBase)
    requires last != NOPTS && inTb.num * outTb.den > outTb.num * inTb.den && Plausible(inTb, ts, fsTb, last)
    ensures RescaleDelta(inTb, ts, fsTb, samples, last, outTb) == Delta(Rescale(last, fsTb, outTb), last + samples)
  {
    hide RescaleDown, RescaleUp, Rescale;
    HalvesOrdered(ts, inTb, fsTb);
  }

  /**
   Coming from a coarse time base, packets are placed by counting samples: while the count agrees
   with the timestamps, each is converted from the exact count, with no rounding carried along.
   */
  lemma {:induction false} SamplesCounted(inTb: TimeBase, fsTb: TimeBase, outTb: TimeBase,
                                          packets: seq<Coarse>, last: int, k: nat)
    requires k <= |packets| && last > NOPTS && inTb.num * outTb.den > outTb.num * inTb.den
    requires forall j :: 0 <= j < k ==> Plausible(inTb, packets[j].ts, fsTb, last + Samples(packets[..j]))
    ensures LastAfter(inTb, fsTb, outTb, packets[..k], last) == last + Samples(packets[..k])
    ensures k < |packets| && Plausible(inTb, packets[k].ts, fsTb, last + Samples(packets[..k])) ==>
      RescaleDelta(inTb, packets[k].ts, fsTb, packets[k].samples, LastAfter(inTb, fsTb, outTb, packets[..k], last), outTb).ts
        == Rescale(last + Samples(packets[..k]), fsTb, outTb)
  {
    hide RescaleDelta, Plausible, Rescale;
    var count := last + Samples(packets[..k]);
    if k > 0 {
      SamplesCounted(inTb, fsTb, outTb, packets, last, k - 1);
      var m := k - 1;
      assert packets[..k][..m] == packets[..m];
      PredictionTaken(inTb, packets[m].ts, fsTb, packets[m].samples, last + Samples(packets[..m]), outTb);
    }
    if k < |packets| && Plausible(inTb, packets[k].ts, fsTb, count) {
      PredictionTaken(inTb, packets[k].ts, fsTb, packets[k].samples, count, outTb);
    }
  }
}
