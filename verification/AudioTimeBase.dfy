/**
 The time base in which a decoder counts audio: one fine enough to hold a whole number of ticks
 per sample for every sample rate seen so far.
 */
module AudioTimeBase {
  import opened Timestamps

  const INT_MAX: int := 0x7fff_ffff

  /** The denominator fallen back to: the common sample rates divide it. */
  const COMMON: Positive := 28224000

  // ---------------------------------------------------------------- divisors

  predicate Divides(d: Positive, n: int) {
    n % d == 0
  }

  lemma MultipleDivides(d: Positive, k: int)
    ensures Divides(d, d * k)
  {
    var q, r := d * k / d, d * k % d;
    assert d * k == d * q + r;
    var x: int := d * k;
    var y: int := d * q;
    assert (k - q) * d == x - y;
    if k - q >= 1 {
      MulMonotone(1, k - q, d);
    } else if k - q <= -1 {
      MulMonotone(k - q, -1, d);
    }
  }

  lemma Quotient(d: Positive, n: int) returns (k: int)
    requires Divides(d, n)
    ensures n == d * k && k == n / d
  {
    k := n / d;
  }

  lemma DividesTrans(a: Positive, b: Positive, n: int)
    requires Divides(a, b) && Divides(b, n)
    ensures Divides(a, n)
  {
    var j := Quotient(a, b);
    var k := Quotient(b, n);
    assert a * j * k == a * (j * k);
    MultipleDivides(a, j * k);
  }

  lemma DividesSum(d: Positive, m: int, n: int)
    requires Divides(d, m) && Divides(d, n)
    ensures Divides(d, m + n)
  {
    var j := Quotient(d, m);
    var k := Quotient(d, n);
    assert d * (j + k) == d * j + d * k;
    MultipleDivides(d, j + k);
  }

  /** The greatest common divisor. */
  function Gcd(a: Positive, b: nat): Positive
    decreases b
  {
    if b == 0 then a else Gcd(b, a % b)
  }

  lemma {:induction false} GcdDivides(a: Positive, b: nat)
    ensures Divides(Gcd(a, b), a) && Divides(Gcd(a, b), b)
    decreases b
  {
    if b == 0 {
      MultipleDivides(a, 1);
    } else {
      var g := Gcd(b, a % b);
      GcdDivides(b, a % b);
      var k := Quotient(g, b);
      var q := a / b;
      assert a == b * q + a % b;
      assert b * q == g * (k * q);
      MultipleDivides(g, k * q);
      DividesSum(g, b * q, a % b);
    }
  }

  /** It is a combination of the two, so that every common divisor divides it. */
  lemma {:induction false} Bezout(a: Positive, b: nat) returns (x: int, y: int)
    ensures a * x + b * y == Gcd(a, b)
    decreases b
  {
    if b == 0 {
      x, y := 1, 0;
    } else {
      var q, r := a / b, a % b;
      var u, v := Bezout(b, r);
      x, y := v, u - q * v;
      assert a == b * q + r;
      assert (b * q + r) * v == b * (q * v) + r * v;
      assert b * (u - q * v) == b * u - b * (q * v);
    }
  }

  /** The product divided by the greatest common divisor. */
  function Lcm(a: Positive, b: Positive): int {
    a / Gcd(a, b) * b
  }

  lemma LcmIsMultiple(a: Positive, b: Positive)
    ensures Lcm(a, b) > 0 && Divides(a, Lcm(a, b)) && Divides(b, Lcm(a, b))
  {
    var g := Gcd(a, b);
    GcdDivides(a, b);
    var i := Quotient(g, a);
    var j := Quotient(g, b);
    assert i * b == i * g * j == a * j;
    MultipleDivides(a, j);
    MultipleDivides(b, i);
    assert b * i == i * b;
    PositiveFactors(i, g);
    ProductPositive(i, b);
  }

  lemma PositiveFactors(i: int, g: Positive)
    requires g * i > 0
    ensures i > 0
  {
    if i <= 0 {
      MulMonotone(i, 0, g);
    }
  }

  lemma ProductPositive(i: Positive, b: Positive)
    ensures i * b > 0
  {
  }

  /** It divides every common multiple. */
  lemma LcmIsLeast(a: Positive, b: Positive, m: int)
    requires Divides(a, m) && Divides(b, m)
    ensures Lcm(a, b) > 0 && Divides(Lcm(a, b), m)
  {
    LcmIsMultiple(a, b);
    var g := Gcd(a, b);
    GcdDivides(a, b);
    var x, y := Bezout(a, b);
    var i := Quotient(g, a);
    var u := Quotient(a, m);
    var v := Quotient(b, m);
    var l: int := i * b;
    var k: int := v * x + u * y;
    Combine(g, i, a, b, m, u, v, x, y);
    MultipleDivides(l, k);
  }

  lemma Combine(g: Positive, i: int, a: int, b: int, m: int, u: int, v: int, x: int, y: int)
    requires a * x + b * y == g && a == g * i && m == a * u && m == b * v
    ensures m == (i * b) * (v * x + u * y)
  {
    var l: int := i * b;
    var k: int := v * x + u * y;
    assert m * g == m * (a * x) + m * (b * y) by {
      assert m * (a * x + b * y) == m * (a * x) + m * (b * y);
    }
    Regroup(b, v, a, x);
    Regroup(a, u, b, y);
    assert (a * b) * k == (a * b) * (v * x) + (a * b) * (u * y);
    assert a * b == g * l;
    assert g * l * k == g * (l * k);
    CancelFactor(g, m, l * k);
  }

  lemma Regroup(a: int, u: int, b: int, y: int)
    ensures (a * u) * (b * y) == (a * b) * (u * y) == (b * a) * (u * y)
  {
  }

  lemma CancelFactor(g: Positive, m: int, n: int)
    requires m * g == g * n
    ensures m == n
  {
    if m < n {
      MulMonotone(m + 1, n, g);
    } else if n < m {
      MulMonotone(n + 1, m, g);
    }
  }

  // ---------------------------------------------------------------- the choice of a time base

  /** A decoded frame; `num` and `den` are its time base, which only a timed frame has to have. */
  datatype Frame = Frame(rate: Positive, pts: int, num: int, den: int, samples: nat)

  predicate Timed(f: Frame) {
    f.pts != NOPTS
  }

  predicate Sound(f: Frame) {
    Timed(f) ==> f.num > 0 && f.den > 0
  }

  function Base(f: Frame): TimeBase
    requires f.num > 0 && f.den > 0
  {
    TimeBase(f.num, f.den)
  }

  function Ticks(den: Positive): TimeBase {
    TimeBase(1, den)
  }

  /** The exact time base would not fit. */
  predicate Overflows(prev: Positive, rate: Positive) {
    prev / Gcd(prev, rate) >= INT_MAX / rate
  }

  function FromRates(prev: Positive, rate: Positive): Positive {
    LcmIsMultiple(prev, rate);
    if Overflows(prev, rate) then COMMON else Lcm(prev, rate)
  }

  /** The frame's own time base is strictly better than the one made from the rates. */
  predicate Better(n: Positive, f: Frame) {
    f.num == 1 && f.den > n && f.den % n == 0
  }

  function NewDen(prev: Positive, f: Frame): Positive {
    var n := FromRates(prev, f.rate);
    if Better(n, f) then f.den else n
  }

  // ---------------------------------------------------------------- the decoder's clock, as a value

  /**
   The timestamp and the length of the last frame, in ticks of `1 / den`; the last sample rate;
   and the prediction of the conversion that keeps track of durations.
   */
  datatype State = State(pts: int, est: int, den: Positive, rate: nat, delta: int)

  function Fresh(): State {
    State(NOPTS, 0, 1, 0, NOPTS)
  }

  function Update(s: State, f: Frame): State {
    if f.rate == s.rate then s
    else
      var n := NewDen(s.den, f);
      State(if s.pts != NOPTS then Rescale(s.pts, Ticks(s.den), Ticks(n)) else NOPTS,
            Rescale(s.est, Ticks(s.den), Ticks(n)), n, f.rate, s.delta)
  }

  /** The timestamp expected of the next frame. */
  function Predicted(s: State): int {
    if s.pts == NOPTS then 0 else s.pts + s.est
  }

  /** The timestamp of a frame in ticks of the running time base, after it is brought up to date. */
  function Place(t: State, f: Frame): Delta
    requires Sound(f)
  {
    var tb := Ticks(t.den);
    if !Timed(f) then RescaleDelta(tb, Predicted(t), tb, f.samples, t.delta, tb)
    else
      var gap := t.pts != NOPTS && f.pts > RescaleUp(Predicted(t), tb, Base(f));
      RescaleDelta(Base(f), f.pts, tb, f.samples, if gap then NOPTS else t.delta, tb)
  }

  function Next(s: State, f: Frame): State
    requires Sound(f)
  {
    var t := Update(s, f);
    var d := Place(t, f);
    State(d.ts, Rescale(f.samples, Ticks(f.rate), Ticks(t.den)), t.den, t.rate, d.last)
  }

  /** The timestamp handed on, counted in samples. */
  function Output(s: State, f: Frame): int
    requires Sound(f)
  {
    var n := Next(s, f);
    Rescale(n.pts, Ticks(n.den), Ticks(f.rate))
  }

  // ---------------------------------------------------------------- the decoder

  class AudioFrame {
    const sampleRate: Positive
    const samples: nat
    var pts: int
    var duration: int
    var num: int
    var den: int

    constructor (f: Frame)
      ensures Value() == f
    {
      sampleRate, samples := f.rate, f.samples;
      pts, duration, num, den := f.pts, 0, f.num, f.den;
    }

    function Value(): Frame
      reads this
    {
      Frame(sampleRate, pts, num, den, samples)
    }
  }

  class Decoder {
    var lastFramePts: int
    var lastFrameDurationEst: int
    var lastFrameTb: TimeBase
    var lastFrameSampleRate: nat
    var lastFilterInRescaleDelta: int

    constructor ()
      ensures Valid() && Clock() == Fresh()
    {
      lastFramePts, lastFrameDurationEst, lastFrameTb := NOPTS, 0, TimeBase(1, 1);
      lastFrameSampleRate, lastFilterInRescaleDelta := 0, NOPTS;
    }

    predicate Valid()
      reads this
    {
      lastFrameTb.num == 1
    }

    function Clock(): State
      reads this
    {
      State(lastFramePts, lastFrameDurationEst, lastFrameTb.den, lastFrameSampleRate, lastFilterInRescaleDelta)
    }

    method SamplerateUpdate(frame: AudioFrame) returns (tb: TimeBase)
      requires Valid()
      modifies this
      ensures Valid() && Clock() == Update(old(Clock()), frame.Value()) && tb == lastFrameTb
    {
      hide Rescale, Gcd;
      if frame.sampleRate == lastFrameSampleRate {
        return lastFrameTb;
      }
      var prev, sr := lastFrameTb.den, frame.sampleRate;
      LcmIsMultiple(prev, sr);
      var gcd := Gcd(prev, sr);
      var tbNew: TimeBase;
      if prev / gcd >= INT_MAX / sr {
        tbNew := TimeBase(1, COMMON);
      } else {
        tbNew := TimeBase(1, prev / gcd * sr);
      }
      if frame.num == 1 && frame.den > tbNew.den && frame.den % tbNew.den == 0 {
        tbNew := TimeBase(1, frame.den);
      }
      if lastFramePts != NOPTS {
        lastFramePts := Rescale(lastFramePts, lastFrameTb, tbNew);
      }
      lastFrameDurationEst := Rescale(lastFrameDurationEst, lastFrameTb, tbNew);
      lastFrameTb := tbNew;
      lastFrameSampleRate := frame.sampleRate;
      return lastFrameTb;
    }

    method TsProcess(frame: AudioFrame)
      requires Valid() && Sound(frame.Value())
      modifies this, frame
      ensures Valid() && Clock() == Next(old(Clock()), old(frame.Value()))
      ensures frame.pts == Output(old(Clock()), old(frame.Value()))
      ensures frame.duration == frame.samples && frame.num == 1 && frame.den == frame.sampleRate
    {
      hide Rescale, RescaleDelta, RescaleUp, NewDen;
      var tbFilter := TimeBase(1, frame.sampleRate);
      var tb := SamplerateUpdate(frame);
      var ptsPred := if lastFramePts == NOPTS then 0 else lastFramePts + lastFrameDurationEst;
      if frame.pts == NOPTS {
        frame.pts := ptsPred;
        frame.num, frame.den := tb.num, tb.den;
      } else if lastFramePts != NOPTS && frame.pts > RescaleUp(ptsPred, tb, TimeBase(frame.num, frame.den)) {
        lastFilterInRescaleDelta := NOPTS;
      }
      var d := RescaleDelta(TimeBase(frame.num, frame.den), frame.pts, tb, frame.samples, lastFilterInRescaleDelta, tb);
      frame.pts := d.ts;
      lastFilterInRescaleDelta := d.last;
      lastFramePts := frame.pts;
      lastFrameDurationEst := Rescale(frame.samples, tbFilter, tb);
      frame.pts := Rescale(frame.pts, tb, tbFilter);
      frame.duration := frame.samples;
      frame.num, frame.den := 1, tbFilter.den;
    }
  }

  // ---------------------------------------------------------------- exact conversions

  ghost predicate Same(a: int, p: Positive, q: Positive) {
    Seconds(Timestamp(Rescale(a, Ticks(p), Ticks(q)), Ticks(q))) == Seconds(Timestamp(a, Ticks(p)))
  }

  lemma SameIff(a: int, r: int, p: Positive, q: Positive)
    ensures Seconds(Timestamp(r, Ticks(q))) == Seconds(Timestamp(a, Ticks(p))) <==> r * p == a * q
  {
    CrossMultiply(r, a, q, p);
    assert r * 1 == r && a * 1 == a;
  }

  lemma FinerIsExact(a: int, p: Positive, q: Positive)
    requires Divides(p, q)
    ensures Same(a, p, q) && Rescale(a, Ticks(p), Ticks(q)) == a * (q / p)
  {
    hide RescaleNear;
    var k := Quotient(p, q);
    assert 1 * q == q && 1 * p == p;
    assert a * q == (a * k) * p by {
      assert a * (p * k) == (a * k) * p;
    }
    RescaleNearExact(a, q, p, a * k);
    SameIff(a, a * k, p, q);
  }

  /** Every timestamp survives the change of time base just when the old one divides the new one. */
  lemma ExactIffFiner(p: Positive, q: Positive)
    ensures (forall a :: Same(a, p, q)) <==> Divides(p, q)
  {
    if Divides(p, q) {
      forall a ensures Same(a, p, q) {
        FinerIsExact(a, p, q);
      }
    } else {
      var r := Rescale(1, Ticks(p), Ticks(q));
      SameIff(1, r, p, q);
      if Same(1, p, q) {
        assert p * r == r * p;
        MultipleDivides(p, r);
      }
    }
  }

  // ---------------------------------------------------------------- one change of rate

  /** The exact time base is given up just when it is within one sample rate of the limit. */
  lemma OverflowsIff(prev: Positive, rate: Positive)
    ensures Overflows(prev, rate) <==> Lcm(prev, rate) + rate > INT_MAX
  {
    var n := prev / Gcd(prev, rate);
    var m := INT_MAX / rate;
    DivFloor(INT_MAX, rate);
    assert (n + 1) * rate == n * rate + rate && (m + 1) * rate == m * rate + rate;
    if n >= m {
      MulMonotone(m + 1, n + 1, rate);
    } else {
      MulMonotone(n + 1, m, rate);
    }
  }

  /** So an exact time base that would still fit can be given up. */
  lemma FitsButGivenUp()
    ensures Overflows(134217, 48000) && Lcm(134217, 48000) <= INT_MAX
  {
    assert Gcd(69, 6) == Gcd(6, 3) == Gcd(3, 0) == 3;
    assert Gcd(633, 282) == Gcd(282, 69) == Gcd(69, 6);
    assert Gcd(8868, 915) == Gcd(915, 633) == Gcd(633, 282);
    assert Gcd(38217, 9783) == Gcd(9783, 8868) == Gcd(8868, 915);
    assert Gcd(134217, 48000) == Gcd(48000, 38217) == Gcd(38217, 9783);
  }

  /** Otherwise the new time base holds whole ticks for the old one and for the new rate. */
  lemma BaseHoldsBoth(prev: Positive, f: Frame)
    requires !Overflows(prev, f.rate)
    ensures Divides(prev, NewDen(prev, f)) && Divides(f.rate, NewDen(prev, f))
    ensures f.den <= INT_MAX ==> NewDen(prev, f) <= INT_MAX
  {
    hide Gcd;
    var n := FromRates(prev, f.rate);
    LcmIsMultiple(prev, f.rate);
    OverflowsIff(prev, f.rate);
    if Better(n, f) {
      DividesTrans(prev, n, f.den);
      DividesTrans(f.rate, n, f.den);
    }
  }

  /** A change of rate moves neither the last timestamp nor the length of the last frame. */
  lemma UpdateExact(s: State, f: Frame)
    requires f.rate != s.rate ==> !Overflows(s.den, f.rate)
    ensures var t := Update(s, f);
      && Divides(s.den, t.den)
      && (s.pts != NOPTS ==> Seconds(Timestamp(t.pts, Ticks(t.den))) == Seconds(Timestamp(s.pts, Ticks(s.den))))
      && Seconds(Timestamp(t.est, Ticks(t.den))) == Seconds(Timestamp(s.est, Ticks(s.den)))
  {
    hide Gcd, NewDen, Seconds, Rescale, Overflows;
    if f.rate == s.rate {
      MultipleDivides(s.den, 1);
    } else {
      BaseHoldsBoth(s.den, f);
      FinerIsExact(s.pts, s.den, NewDen(s.den, f));
      FinerIsExact(s.est, s.den, NewDen(s.den, f));
    }
  }

  // ---------------------------------------------------------------- whole runs

  predicate AllSound(frames: seq<Frame>) {
    forall k :: 0 <= k < |frames| ==> Sound(frames[k])
  }

  function Run(s: State, frames: seq<Frame>): State
    requires AllSound(frames)
    decreases frames
  {
    if frames == [] then s else Run(Next(s, frames[0]), frames[1..])
  }

  predicate NeverOverflows(s: State, frames: seq<Frame>)
    requires AllSound(frames)
    decreases frames
  {
    frames == [] ||
    ((frames[0].rate != s.rate ==> !Overflows(s.den, frames[0].rate)) && NeverOverflows(Next(s, frames[0]), frames[1..]))
  }

  /** The last rate fits the time base, if there was one. */
  predicate Fits(s: State) {
    s.rate > 0 ==> Divides(s.rate, s.den)
  }

  lemma NextFits(s: State, f: Frame)
    requires Fits(s) && Sound(f) && (f.rate != s.rate ==> !Overflows(s.den, f.rate))
    ensures var n := Next(s, f);
      && Fits(n) && n.rate == f.rate && Divides(s.den, n.den)
      && Seconds(Timestamp(n.est, Ticks(n.den))) == Seconds(Timestamp(f.samples, Ticks(f.rate)))
  {
    hide Gcd, NewDen, Seconds, Rescale, RescaleDelta, Overflows, Place;
    UpdateExact(s, f);
    if f.rate != s.rate {
      BaseHoldsBoth(s.den, f);
    }
    FinerIsExact(f.samples, f.rate, Update(s, f).den);
  }

  /** As long as the fallback is not taken, every rate seen divides the running time base. */
  lemma {:induction false} EveryRateDivides(s: State, frames: seq<Frame>)
    requires AllSound(frames) && NeverOverflows(s, frames) && Fits(s)
    ensures var n := Run(s, frames);
      && Fits(n) && Divides(s.den, n.den)
      && forall k :: 0 <= k < |frames| ==> Divides(frames[k].rate, n.den)
    decreases frames
  {
    hide Next, Overflows, Divides;
    if frames == [] {
      MultipleDivides(s.den, 1);
    } else {
      NextFits(s, frames[0]);
      var t := Next(s, frames[0]);
      EveryRateDivides(t, frames[1..]);
      var n := Run(s, frames);
      FitsDivides(t, frames[0].rate);
      DividesTrans(s.den, t.den, n.den);
      DividesTrans(frames[0].rate, t.den, n.den);
      forall k | 0 <= k < |frames| ensures Divides(frames[k].rate, n.den) {
        if k > 0 {
          assert frames[k] == frames[1..][k - 1];
        }
      }
    }
  }

  lemma FitsDivides(s: State, rate: Positive)
    requires Fits(s) && s.rate == rate
    ensures Divides(rate, s.den)
  {
  }

  // ---------------------------------------------------------------- frames without timestamps

  ghost function Length(frames: seq<Frame>): real
    decreases frames
  {
    if frames == [] then 0.0 else Seconds(Timestamp(frames[0].samples, Ticks(frames[0].rate))) + Length(frames[1..])
  }

  /** The point in time expected of the next frame. */
  ghost function Due(s: State): real {
    Seconds(Timestamp(Predicted(s), Ticks(s.den)))
  }

  predicate NonNegative(s: State) {
    (s.pts == NOPTS || s.pts >= 0) && s.est >= 0
  }

  lemma ConvertNonNegative(a: nat, from: TimeBase, to: TimeBase)
    ensures Rescale(a, from, to) >= 0
  {
    var b: Positive, c: Positive := from.num * to.den, to.num * from.den;
    MulMonotone(0, a, b);
  }

  lemma UpdateDue(s: State, f: Frame)
    requires NonNegative(s) && (f.rate != s.rate ==> !Overflows(s.den, f.rate))
    ensures NonNegative(Update(s, f)) && Due(Update(s, f)) == Due(s)
  {
    hide Gcd, NewDen, Seconds, Rescale, Overflows;
    var t := Update(s, f);
    UpdateExact(s, f);
    if s.pts == NOPTS {
      SameIff(0, 0, s.den, t.den);
    } else {
      if f.rate != s.rate {
        ConvertNonNegative(s.pts, Ticks(s.den), Ticks(t.den));
      }
      SecondsAdd(s.pts, s.est, Ticks(s.den));
      SecondsAdd(t.pts, t.est, Ticks(t.den));
    }
    if f.rate != s.rate {
      ConvertNonNegative(s.est, Ticks(s.den), Ticks(t.den));
    }
  }

  /** A frame without a timestamp starts exactly when it is due, and the next one is due when it ends. */
  lemma UntimedStep(s: State, f: Frame)
    requires Fits(s) && NonNegative(s) && !Timed(f) && (f.rate != s.rate ==> !Overflows(s.den, f.rate))
    ensures var n := Next(s, f);
      && Fits(n) && NonNegative(n)
      && Seconds(Timestamp(n.pts, Ticks(n.den))) == Due(s)
      && Due(n) == Due(s) + Seconds(Timestamp(f.samples, Ticks(f.rate)))
  {
    hide Gcd, NewDen, Seconds, Rescale, Overflows, Update;
    NextFits(s, f);
    UpdateDue(s, f);
    var t, n := Update(s, f), Next(s, f);
    RescaleSame(Predicted(t), Ticks(t.den));
    assert n.pts == Predicted(t) && n.pts >= 0;
    ConvertNonNegative(f.samples, Ticks(f.rate), Ticks(t.den));
    SecondsAdd(n.pts, n.est, Ticks(n.den));
  }

  /**
   Frames without timestamps never drift, however often the rate changes: the frame after any run
   is due exactly the total length of the run later.
   */
  lemma {:induction false} UntimedNeverDrifts(s: State, frames: seq<Frame>)
    requires AllSound(frames) && (forall k :: 0 <= k < |frames| ==> !Timed(frames[k]))
    requires NeverOverflows(s, frames) && Fits(s) && NonNegative(s)
    ensures var n := Run(s, frames);
      Fits(n) && NonNegative(n) && Due(n) == Due(s) + Length(frames)
    decreases frames
  {
    hide Next, Overflows, Due, Seconds;
    if frames != [] {
      UntimedStep(s, frames[0]);
      UntimedNeverDrifts(Next(s, frames[0]), frames[1..]);
    }
  }

  /** Every frame is handed on at the sample nearest to where it was placed. */
  lemma OutputNearest(s: State, f: Frame)
    requires Sound(f)
    ensures var n := Next(s, f);
      var x, y := Seconds(Timestamp(n.pts, Ticks(n.den))), Seconds(Timestamp(Output(s, f), Ticks(f.rate)));
      x - Slack(Ticks(n.den), Ticks(f.rate)) <= y <= x + Slack(Ticks(n.den), Ticks(f.rate))
  {
    hide Next, Seconds, Slack, Rescale;
    ConversionError(Next(s, f).pts, Ticks(Next(s, f).den), Ticks(f.rate));
  }

  /** What is handed on for such a frame is the point in time it is due, to the nearest sample. */
  lemma UntimedOutput(s: State, f: Frame)
    requires Fits(s) && NonNegative(s) && !Timed(f) && (f.rate != s.rate ==> !Overflows(s.den, f.rate))
    ensures var y := Seconds(Timestamp(Output(s, f), Ticks(f.rate)));
      Due(s) - Slack(Ticks(Next(s, f).den), Ticks(f.rate)) <= y <= Due(s) + Slack(Ticks(Next(s, f).den), Ticks(f.rate))
  {
    hide Next, Overflows, Due, Seconds, Slack, Rescale;
    UntimedStep(s, f);
    ConversionError(Next(s, f).pts, Ticks(Next(s, f).den), Ticks(f.rate));
  }

  /** A frame with a timestamp stays within half a tick of its time base and a tick of the running one. */
  lemma TimedClose(s: State, f: Frame)
    requires Sound(f) && Timed(f)
    ensures var n := Next(s, f);
      var x, y := Seconds(Timestamp(f.pts, Base(f))), Seconds(Timestamp(n.pts, Ticks(n.den)));
      var h := Tick(Base(f)) / 2.0 + Tick(Ticks(n.den)) + Slack(Base(f), Ticks(n.den));
      x - h <= y <= x + h
  {
    hide RescaleDelta, Rescale, Update, Seconds, Tick;
    var t := Update(s, f);
    var gap := t.pts != NOPTS && f.pts > RescaleUp(Predicted(t), Ticks(t.den), Base(f));
    DeltaClose(Base(f), f.pts, Ticks(t.den), f.samples, if gap then NOPTS else t.delta, Ticks(t.den));
  }

  // ---------------------------------------------------------------- frames with timestamps

  /** The frame starts at least one whole tick of its time base after the point expected. */
  ghost predicate GapBefore(s: State, f: Frame)
    requires Sound(f) && Timed(f)
  {
    s.pts != NOPTS && Seconds(Timestamp(f.pts - 1, Base(f))) >= Due(s)
  }

  lemma CeilingAtMost(a: int, b: Positive, c: Positive, n: int)
    ensures -(-a * b / c) <= n <==> a * b <= n * c
  {
    var x: int := a * b;
    var y: int := -a * b;
    assert y == -x;
    FloorBelow(y, c, -n);
    var z: int := n * c;
    assert -n * c == -z;
  }

  /** The test for a gap compares points in time. */
  lemma GapIff(t: State, f: Frame)
    requires Sound(f) && Timed(f)
    ensures (t.pts != NOPTS && f.pts > RescaleUp(Predicted(t), Ticks(t.den), Base(f))) <==> GapBefore(t, f)
  {
    var p, tb := Predicted(t), Ticks(t.den);
    var b: Positive, c: Positive := tb.num * f.den, f.num * tb.den;
    CeilingAtMost(p, b, c, f.pts - 1);
    CompareExact(Timestamp(f.pts - 1, Base(f)), Timestamp(p, tb));
    var x: int := (f.pts - 1) * c;
    var y: int := p * b;
    assert (f.pts - 1) * (f.num * tb.den) == x;
    assert p * (tb.num * f.den) == y;
  }

  /**
   A frame with a timestamp behind a gap, or whose time base is no coarser than the running one, or
   the first of its kind, is placed by its timestamp alone, to the nearest tick. Otherwise, as long as
   the position counted so far is plausible for the timestamp, that position is taken. Either way the
   next frame is expected right behind it.
   */
  lemma TimedPlaced(s: State, f: Frame)
    requires Sound(f) && Timed(f)
    ensures var t, n := Update(s, f), Next(s, f);
      var tb := Ticks(t.den);
      && t.delta == s.delta && n.den == t.den
      && (GapBefore(t, f) || s.delta == NOPTS || f.samples == 0 || f.num * t.den <= f.den ==>
            n.pts == Rescale(f.pts, Base(f), tb) && n.delta == n.pts + f.samples)
      && (!GapBefore(t, f) && s.delta != NOPTS && f.samples > 0 && f.num * t.den > f.den
          && Plausible(Base(f), f.pts, tb, s.delta) ==>
            n.pts == s.delta && n.delta == s.delta + f.samples)
  {
    hide Rescale, RescaleDown, Due, Predicted, NewDen, GapBefore;
    var t := Update(s, f);
    var tb := Ticks(t.den);
    GapIff(t, f);
    assert f.num * tb.den == f.num * t.den && tb.num * f.den == f.den;
    if s.delta != NOPTS && f.samples > 0 && f.num * t.den > f.den && Plausible(Base(f), f.pts, tb, s.delta) {
      PredictionTaken(Base(f), f.pts, tb, f.samples, s.delta, tb);
      RescaleSame(s.delta, tb);
    }
  }

  lemma FirstDen(f: Frame)
    ensures FromRates(1, f.rate) == if 2 * f.rate <= INT_MAX then f.rate else COMMON
  {
    GcdDivides(1, f.rate);
    assert Gcd(1, f.rate) == 1 by {
      DivisorSmall(Gcd(1, f.rate), 1);
    }
    hide Gcd;
    if 2 * f.rate <= INT_MAX {
      assert INT_MAX / f.rate >= 2;
    } else {
      assert INT_MAX / f.rate <= 1;
    }
  }

  /**
   The first frame counts in its own samples, or in its own time base if that is strictly better; it is
   placed at its timestamp, or at zero without one.
   */
  lemma FirstFrame(f: Frame)
    requires Sound(f) && 2 * f.rate <= INT_MAX
    ensures var n := Next(Fresh(), f);
      && n.den == (if f.num == 1 && f.den > f.rate && f.den % f.rate == 0 then f.den else f.rate)
      && n.rate == f.rate
      && (Timed(f) ==> n.pts == Rescale(f.pts, Base(f), Ticks(n.den)))
      && (!Timed(f) ==> n.pts == 0 && Output(Fresh(), f) == 0)
  {
    FirstDen(f);
    hide Rescale, FromRates, RescaleDown, RescaleUp;
    RescaleZero(Ticks(NewDen(1, f)), Ticks(NewDen(1, f)));
    RescaleZero(Ticks(NewDen(1, f)), Ticks(f.rate));
  }

  /** A frame's own time base of whole ticks is held by the running one if that suits the rates. */
  lemma FrameBaseHeld(prev: Positive, f: Frame)
    requires f.num == 1 && f.den > 0 && Divides(FromRates(prev, f.rate), f.den)
    ensures forall a :: Same(a, f.den, NewDen(prev, f))
  {
    hide Same, FromRates;
    var n := FromRates(prev, f.rate);
    assert f.den >= n by {
      DivisorSmall(n, f.den);
    }
    MultipleDivides(f.den, 1);
    ExactIffFiner(f.den, NewDen(prev, f));
  }

  // ---------------------------------------------------------------- common sample rates

  /** The rate divides the common base, and so does the frame's own time base if it could be kept. */
  predicate CommonFrame(f: Frame) {
    && Divides(f.rate, COMMON)
    && (f.num == 1 && f.den > 0 && f.den % f.rate == 0 ==> COMMON % f.den == 0)
  }

  lemma DivisorSmall(d: Positive, n: Positive)
    requires Divides(d, n)
    ensures d <= n
  {
  }

  lemma CommonNewDen(prev: Positive, f: Frame)
    requires Divides(prev, COMMON) && CommonFrame(f)
    ensures !Overflows(prev, f.rate) && Divides(NewDen(prev, f), COMMON)
  {
    hide Gcd;
    LcmIsLeast(prev, f.rate, COMMON);
    DivisorSmall(Lcm(prev, f.rate), COMMON);
    DivisorSmall(f.rate, COMMON);
    OverflowsIff(prev, f.rate);
    LcmIsMultiple(prev, f.rate);
    var n := FromRates(prev, f.rate);
    if Better(n, f) {
      DividesTrans(f.rate, n, f.den);
    }
  }

  /**
   The fallback is never needed while every rate divides the common base, and so does the time base
   of every frame that could be kept instead.
   */
  lemma {:induction false} CommonNeverOverflows(s: State, frames: seq<Frame>)
    requires AllSound(frames) && Divides(s.den, COMMON)
    requires forall k :: 0 <= k < |frames| ==> CommonFrame(frames[k])
    ensures NeverOverflows(s, frames) && Divides(Run(s, frames).den, COMMON)
    decreases frames
  {
    hide Overflows, NewDen, Place, Rescale, Divides, CommonFrame;
    if frames != [] {
      CommonNewDen(s.den, frames[0]);
      CommonNeverOverflows(Next(s, frames[0]), frames[1..]);
    }
  }

  /** The rates alone are not enough: a fine time base of the first frame is kept and then cannot be extended. */
  lemma KeptBaseNeedsFallback()
    ensures var f, h := Frame(8000, 0, 1, 1000000000, 100), Frame(44100, 0, 1, 44100, 100);
      && Divides(f.rate, COMMON) && Divides(h.rate, COMMON)
      && NewDen(1, f) == 1000000000 && Overflows(NewDen(1, f), h.rate)
  {
    var f := Frame(8000, 0, 1, 1000000000, 100);
    assert Gcd(1, 8000) == Gcd(8000, 1) == Gcd(1, 0) == 1;
    assert FromRates(1, 8000) == 8000;
    assert Gcd(9300, 2300) == Gcd(2300, 100) == Gcd(100, 0) == 100;
    assert Gcd(32500, 11600) == Gcd(11600, 9300) == Gcd(9300, 2300);
    assert Gcd(1000000000, 44100) == Gcd(44100, 32500) == Gcd(32500, 11600);
  }

  /**
   A change of rate keeps all timestamps if and only if the old denominator divides the new one;
   that is always so unless the fallback is taken.
   */
  lemma ChangeExactIff(prev: Positive, f: Frame)
    ensures (forall a :: Same(a, prev, NewDen(prev, f))) <==>
      if !Overflows(prev, f.rate) then true
      else if Better(COMMON, f) then Divides(prev, f.den) else Divides(prev, COMMON)
  {
    hide Same, Gcd;
    ExactIffFiner(prev, NewDen(prev, f));
    if !Overflows(prev, f.rate) {
      BaseHoldsBoth(prev, f);
    }
  }
}
