/**
 Video frame rate conversion: for each input frame, how often it (and the frame before
 it) goes to the output, and at which timestamps.  Timestamps and durations are in units
 of the output time base; floating-point numbers are idealised as reals.
 */
module VideoSync {

  // ---------------------------------------------------------------- rounding

  /** Rounds to the nearest integer, halfway cases to even. */
  function Llrint(x: real): int {
    var f := x.Floor;
    var d := x - f as real;
    if d < 0.5 then f else if d > 0.5 then f + 1 else if f % 2 == 0 then f else f + 1
  }

  lemma LlrintNear(x: real)
    ensures x - 0.5 <= Llrint(x) as real <= x + 0.5
  {
  }

  lemma LlrintTies(n: int)
    ensures Llrint(n as real + 0.5) == if n % 2 == 0 then n else n + 1
  {
    assert (n as real + 0.5).Floor == n;
  }

  lemma LlrintMonotone(x: real, y: real)
    requires x <= y
    ensures Llrint(x) <= Llrint(y)
  {
    assert x.Floor <= y.Floor;
  }

  lemma LlrintAbove(n: int, x: real)
    requires n as real <= x
    ensures n <= Llrint(x)
  {
    LlrintMonotone(n as real, x);
  }

  // ---------------------------------------------------------------- one decision

  datatype Method = Cfr | Vscfr | Vfr | Passthrough | Drop

  datatype Config = Config(vsync: Method, dropThreshold: real, dupLimit: real)

  /** An input frame: where it starts in the output, how long it lasts, which picture it is. */
  datatype Frame = Frame(ipts: real, duration: real, id: int)

  function End(f: Frame): real {
    f.ipts + f.duration
  }

  /** `nb` output frames, the first `prev` of them showing the previous picture, from pts `base`. */
  datatype Plan = Plan(nb: int, prev: int, base: int)

  /** The decision for one input frame when the next output pts is `next`. */
  function Decide(c: Config, next: int, frameNumber: int, f: Frame): Plan {
    var start := f.ipts - next as real;
    var delta := start + f.duration;
    var clipped := start < 0.0 && delta > 0.0;
    match c.vsync
    case Passthrough => Plan(1, 0, Llrint(f.ipts))
    case Drop => Plan(1, 0, Llrint(f.ipts))
    case Vfr =>
      Plan(if delta <= -0.6 then 0 else 1, 0,
           if delta > 0.6 then (if clipped then next else Llrint(f.ipts)) else next)
    case _ =>
      // a variable start: the gap before the very first frame is not filled
      var late := c.vsync == Vscfr && frameNumber == 0 && start >= 0.5;
      var d := if late then f.duration else delta;
      var s := if late || clipped then 0.0 else start;
      var base := if late then Llrint(f.ipts) else next;
      if c.dropThreshold != 0.0 && d < c.dropThreshold && frameNumber != 0 then Plan(0, 0, base)
      else if d < -1.1 then Plan(0, 0, base)
      else if d > 1.1 then Plan(Llrint(d), if s > 1.1 then Llrint(s - 0.6) else 0, base)
      else Plan(1, 0, base)
  }

  /** The middle one of three numbers. */
  function Median3(a: int, b: int, c: int): (m: int)
    ensures m == a || m == b || m == c
    ensures (a <= m && (b <= m || c <= m)) || (b <= m && c <= m)
    ensures (a >= m && (b >= m || c >= m)) || (b >= m && c >= m)
  {
    var max2 := if a >= b then a else b;
    var min2 := if a >= b then b else a;
    var m := if c >= max2 then max2 else c;
    if m >= min2 then m else min2
  }

  // ---------------------------------------------------------------- one input frame, or the end

  datatype Output = Output(pts: int, id: int)

  datatype Picture = NoPicture | Picture(id: int)

  datatype State = State(
    nextPts: int, frameNumber: int, hist: seq<int>, lastDropped: int,
    nbDup: int, nbDrop: int, last: Picture,
    received: int, out: seq<Output>)

  const START := State(0, 0, [0, 0, 0], 0, 0, 0, NoPicture, 0, [])

  ghost predicate StateOk(s: State) {
    |s.hist| == 3 && s.lastDropped >= 0 && s.frameNumber == |s.out|
  }

  function Bit(b: bool): int {
    if b then 1 else 0
  }

  /** The repeat counter passes the limit: the repetition is given up. */
  predicate TooMany(c: Config, s: State, nb: int, prev: int) {
    nb > Bit(prev != 0 && s.lastDropped != 0) + Bit(nb > prev) && nb as real > c.dupLimit * 30.0
  }

  /** The counters after a decision; `frame` tells an input frame from the end of input. */
  function Account(c: Config, s: State, nb: int, prev: int, frame: bool): State {
    var kept := Bit(prev != 0 && s.lastDropped != 0) + Bit(nb > prev);
    var t := s.(hist := if |s.hist| >= 2 then [prev, s.hist[0], s.hist[1]] else [prev, 0, 0],
                nbDrop := s.nbDrop + Bit(prev == 0 && s.lastDropped != 0));
    if TooMany(c, s, nb, prev) then t.(nbDrop := t.nbDrop + 1)
    else t.(nbDup := s.nbDup + (if nb > kept then nb - kept else 0), lastDropped := Bit(nb == prev && frame))
  }

  /** The counters do not depend on the output position. */
  lemma AccountMoves(c: Config, s: State, nb: int, prev: int, base: int)
    ensures TooMany(c, s.(nextPts := base), nb, prev) == TooMany(c, s, nb, prev)
    ensures Account(c, s.(nextPts := base), nb, prev, true) == Account(c, s, nb, prev, true).(nextPts := base)
  {
  }

  /** `n` more output frames, the first `prev` of them showing picture `before`, the others `now`. */
  function Emit(out: seq<Output>, next: int, before: int, prev: int, now: int, n: nat): seq<Output> {
    if n == 0 then out
    else Emit(out, next, before, prev, now, n - 1) + [Output(next + n - 1, if n - 1 < prev then before else now)]
  }

  function IdOf(p: Picture, otherwise: Picture): int {
    if p.Picture? then p.id else if otherwise.Picture? then otherwise.id else 0
  }

  function Min(a: int, b: int): int {
    if a < b then a else b
  }

  function Positive(a: int): nat {
    if a > 0 then a else 0
  }

  /** Receives a frame; the consumer accepts at most `accepts` output frames and then fails. */
  function Receive(c: Config, s: State, f: Frame, accepts: nat): State {
    var p := Decide(c, s.nextPts, s.frameNumber, f);
    var t := Account(c, s, p.nb, p.prev, true);
    var nb := Positive(if TooMany(c, s, p.nb, p.prev) then 0 else p.nb);
    var n := Min(nb, accepts);
    t.(nextPts := p.base + n, frameNumber := s.frameNumber + n, received := s.received + 1,
       out := Emit(s.out, p.base, IdOf(s.last, Picture(f.id)), p.prev, f.id, n),
       last := if n == nb then Picture(f.id) else s.last)
  }

  /** How many times the last frame is repeated at the end of input. */
  function Tail(s: State): int {
    if |s.hist| == 3 then Median3(s.hist[0], s.hist[1], s.hist[2]) else 0
  }

  /** The input has ended; at least one output of the filtergraph has sent a frame. */
  function FinishSent(c: Config, s: State, accepts: nat): State {
    var m := Tail(s);
    var pending := m == 0 && s.lastDropped != 0;
    var s1 := if pending then s.(nbDrop := s.nbDrop + 1, lastDropped := s.lastDropped + 1) else s;
    var t := Account(c, s1, m, m, false);
    var nb := if TooMany(c, s1, m, m) || s.last == NoPicture then 0 else Positive(m);
    var n := Min(nb, accepts);
    t.(nextPts := s.nextPts + n, frameNumber := s.frameNumber + n,
       out := Emit(s.out, s.nextPts, IdOf(s.last, s.last), m, IdOf(s.last, s.last), n))
  }

  /**
   The input has ended. `gotFrame` tells whether this output, or another one of the same filtergraph,
   has sent a frame; without one nothing is done.
   */
  function Finish(c: Config, s: State, gotFrame: bool, accepts: nat): State {
    if gotFrame then FinishSent(c, s, accepts) else s
  }

  // ---------------------------------------------------------------- the converter

  class Converter {
    const c: Config
    var nextPts: int
    var frameNumber: int
    const framesPrevHist: array<int>
    var lastDropped: int
    var nbDup: int
    var nbDrop: int
    var last: Picture
    var received: int
    var out: seq<Output>

    ghost predicate Valid()
      reads this, framesPrevHist
    {
      framesPrevHist.Length == 3 && StateOk(View())
    }

    ghost function View(): State
      reads this, framesPrevHist
    {
      State(nextPts, frameNumber, framesPrevHist[..], lastDropped, nbDup, nbDrop, last, received, out)
    }

    constructor (config: Config)
      ensures Valid() && View() == START && c == config && fresh(framesPrevHist)
    {
      c := config;
      nextPts, frameNumber, lastDropped, nbDup, nbDrop, last, received, out := 0, 0, 0, 0, 0, NoPicture, 0, [];
      var hist := new int[3](_ => 0);
      framesPrevHist := hist;
      new;
      assert framesPrevHist[..] == [0, 0, 0];
    }

    /** Books a decision in the history and the counters; the number of frames may be cut to none. */
    method Finalise(nbFrames: int, nbFramesPrev: int, frame: bool) returns (nb: int)
      requires Valid()
      modifies this`nbDrop, this`nbDup, this`lastDropped, framesPrevHist
      ensures Valid()
      ensures View() == Account(c, old(View()), nbFrames, nbFramesPrev, frame)
      ensures nb == if TooMany(c, old(View()), nbFrames, nbFramesPrev) then 0 else nbFrames
    {
      nb := nbFrames;
      framesPrevHist[2] := framesPrevHist[1];
      framesPrevHist[1] := framesPrevHist[0];
      framesPrevHist[0] := nbFramesPrev;
      assert framesPrevHist[..] == [nbFramesPrev, old(framesPrevHist[0]), old(framesPrevHist[1])];
      if nbFramesPrev == 0 && lastDropped != 0 {
        nbDrop := nbDrop + 1;
      }
      var kept := Bit(nbFramesPrev != 0 && lastDropped != 0) + Bit(nbFrames > nbFramesPrev);
      if nb > kept {
        if nb as real > c.dupLimit * 30.0 {
          nbDrop := nbDrop + 1;
          return 0;
        }
        nbDup := nbDup + nb - kept;
      }
      lastDropped := Bit(nb == nbFramesPrev && frame);
    }

    /** Decides how often the frame and the one before it go to the output. */
    method VideoSyncProcess(f: Frame) returns (nbFrames: int, nbFramesPrev: int)
      requires Valid()
      modifies this`nextPts, this`nbDrop, this`nbDup, this`lastDropped, framesPrevHist
      ensures Valid()
      ensures var p := Decide(c, old(nextPts), old(frameNumber), f);
        && nbFramesPrev == p.prev
        && nbFrames == (if TooMany(c, old(View()), p.nb, p.prev) then 0 else p.nb)
        && View() == Account(c, old(View()), p.nb, p.prev, true).(nextPts := p.base)
    {
      hide TooMany, Account;
      var duration := f.duration;
      var syncIpts := f.ipts;
      var delta0 := syncIpts - nextPts as real;
      var delta := delta0 + duration;
      nbFramesPrev := 0;
      nbFrames := 1;
      if delta0 < 0.0 && delta > 0.0 && c.vsync != Passthrough && c.vsync != Drop {
        syncIpts := nextPts as real;
        duration := duration + delta0;
        delta0 := 0.0;
      }
      if c.vsync == Vfr {
        if delta <= -0.6 {
          nbFrames := 0;
        } else if delta > 0.6 {
          nextPts := Llrint(syncIpts);
        }
      } else if c.vsync == Passthrough || c.vsync == Drop {
        nextPts := Llrint(syncIpts);
      } else {
        if c.vsync == Vscfr && frameNumber == 0 && delta0 >= 0.5 {
          delta := duration;
          delta0 := 0.0;
          nextPts := Llrint(syncIpts);
        }
        if c.dropThreshold != 0.0 && delta < c.dropThreshold && frameNumber != 0 {
          nbFrames := 0;
        } else if delta < -1.1 {
          nbFrames := 0;
        } else if delta > 1.1 {
          nbFrames := Llrint(delta);
          if delta0 > 1.1 {
            nbFramesPrev := Llrint(delta0 - 0.6);
          }
        }
      }
      assert Plan(nbFrames, nbFramesPrev, nextPts) == Decide(c, old(nextPts), old(frameNumber), f);
      hide Decide;
      AccountMoves(c, old(View()), nbFrames, nbFramesPrev, nextPts);
      nbFrames := Finalise(nbFrames, nbFramesPrev, true);
    }

    /** Sends the decided frames one by one until the consumer fails. */
    method SendFrames(nbFrames: int, prev: int, before: Picture, now: Picture, accepts: nat) returns (ok: bool)
      requires Valid()
      modifies this`nextPts, this`frameNumber, this`out
      ensures Valid()
      ensures var possible := if now.Picture? then Positive(nbFrames)
                              else if before.Picture? then Positive(Min(nbFrames, prev)) else 0;
        var n: nat := Min(possible, accepts);
        && ok == (n == possible)
        && View() == old(View()).(nextPts := old(nextPts) + n, frameNumber := old(frameNumber) + n,
             out := Emit(old(out), old(nextPts), IdOf(before, now), prev, IdOf(now, before), n))
      ensures |old(out)| <= |out| && out[..|old(out)|] == old(out)
      ensures forall k :: |old(out)| <= k < |out| ==>
        var n := k - |old(out)|;
        && out[k].pts == old(nextPts) + n
        && (if n < prev && before.Picture? then out[k].id == before.id else now.Picture? && out[k].id == now.id)
    {
      var i := 0;
      while i < nbFrames
        invariant 0 <= i && (i <= nbFrames || i == 0) && i <= accepts && Valid()
        invariant now == NoPicture ==> i == 0 || (i <= prev && before.Picture?)
        invariant View() == old(View()).(nextPts := old(nextPts) + i, frameNumber := old(frameNumber) + i,
          out := Emit(old(out), old(nextPts), IdOf(before, now), prev, IdOf(now, before), i))
        invariant |out| == |old(out)| + i && out[..|old(out)|] == old(out)
        invariant forall k :: |old(out)| <= k < |out| ==>
          var n := k - |old(out)|;
          && out[k].pts == old(nextPts) + n
          && (if n < prev && before.Picture? then out[k].id == before.id else now.Picture? && out[k].id == now.id)
        decreases nbFrames - i
      {
        var shown := if i < prev && before.Picture? then before else now;
        if shown == NoPicture {
          break;
        }
        if i == accepts {
          return false;
        }
        out := out + [Output(nextPts, shown.id)];
        frameNumber := frameNumber + 1;
        nextPts := nextPts + 1;
        i := i + 1;
      }
      ok := true;
    }

    /** Converts one input frame. */
    method OutputFrame(f: Frame, accepts: nat) returns (ok: bool)
      requires Valid()
      modifies this, framesPrevHist
      ensures Valid() && View() == Receive(c, old(View()), f, accepts)
    {
      hide Emit, Llrint;
      received := received + 1;
      var nbFrames, nbFramesPrev := VideoSyncProcess(f);
      ok := SendFrames(nbFrames, nbFramesPrev, last, Picture(f.id), accepts);
      if ok {
        last := Picture(f.id);
      }
    }

    /** Handles the end of input. */
    method OutputEnd(gotFrame: bool, accepts: nat) returns (ok: bool)
      requires Valid()
      modifies this, framesPrevHist
      ensures Valid() && View() == Finish(c, old(View()), gotFrame, accepts)
    {
      if !gotFrame {
        return true;
      }
      var nbFrames := Median3(framesPrevHist[0], framesPrevHist[1], framesPrevHist[2]);
      var nbFramesPrev := nbFrames;
      if nbFrames == 0 && lastDropped != 0 {
        nbDrop := nbDrop + 1;
        lastDropped := lastDropped + 1;
      }
      nbFrames := Finalise(nbFrames, nbFramesPrev, false);
      ok := SendFrames(nbFrames, nbFramesPrev, last, NoPicture, accepts);
    }
  }

  // ---------------------------------------------------------------- frame conservation

  /** Frames sent beyond those received, not pending, not dropped, or repeated: zero when none is lost track of. */
  function Imbalance(s: State): int {
    |s.out| - (s.received - Bit(s.lastDropped != 0) - s.nbDrop + s.nbDup)
  }

  predicate Balanced(s: State) {
    Imbalance(s) == 0
  }

  /** A constant rate that leaves the gap before the very first frame alone. */
  predicate LateStart(c: Config, next: int, frameNumber: int, f: Frame) {
    c.vsync == Vscfr && frameNumber == 0 && f.ipts - next as real >= 0.5
  }

  /** What a frame has to cover at a constant rate. */
  function Span(c: Config, next: int, frameNumber: int, f: Frame): real {
    if LateStart(c, next, frameNumber, f) then f.duration else f.ipts - next as real + f.duration
  }

  /** A constant rate frame that covers more than one output frame. */
  predicate Stretched(c: Config, next: int, frameNumber: int, f: Frame) {
    var d := Span(c, next, frameNumber, f);
    && (c.vsync == Cfr || c.vsync == Vscfr)
    && !(c.dropThreshold != 0.0 && d < c.dropThreshold && frameNumber != 0)
    && d > 1.1
  }

  /** It starts so late that the previous picture is repeated before it. */
  predicate Gap(c: Config, next: int, frameNumber: int, f: Frame) {
    f.ipts - next as real > 1.1 && !LateStart(c, next, frameNumber, f)
  }

  /** The previous picture is asked for more often than there are output frames. */
  predicate PrevTooOften(c: Config, next: int, frameNumber: int, f: Frame) {
    var start := f.ipts - next as real;
    && (c.vsync == Cfr || (c.vsync == Vscfr && frameNumber != 0))
    && !(c.dropThreshold != 0.0 && start + f.duration < c.dropThreshold && frameNumber != 0)
    && start + f.duration > 1.1 && start > 1.1
    && Llrint(start - 0.6) > Llrint(start + f.duration)
  }

  lemma PrevTooOftenIff(c: Config, next: int, frameNumber: int, f: Frame)
    ensures var p := Decide(c, next, frameNumber, f);
      p.prev > p.nb <==> PrevTooOften(c, next, frameNumber, f)
  {
  }

  /**
   At a constant rate a frame is dropped exactly if it ends more than 1.1 before the output position,
   or, once something has been sent, below the drop threshold; otherwise at least one frame goes out.
   */
  lemma DroppedIff(c: Config, next: int, frameNumber: int, f: Frame)
    requires c.vsync == Cfr || c.vsync == Vscfr
    ensures var d := Span(c, next, frameNumber, f);
      Decide(c, next, frameNumber, f).nb == 0 <==>
        d < -1.1 || (c.dropThreshold != 0.0 && d < c.dropThreshold && frameNumber != 0)
  {
  }

  /**
   Where the frames of a decision begin: at the output position, except that passing frames through
   and a variable start go to the position nearest to the start of the frame.
   */
  lemma BeginsAt(c: Config, next: int, frameNumber: int, f: Frame)
    ensures var p := Decide(c, next, frameNumber, f);
      && (c.vsync == Passthrough || c.vsync == Drop || LateStart(c, next, frameNumber, f) ==>
            f.ipts - 0.5 <= p.base as real <= f.ipts + 0.5)
      && (c.vsync == Passthrough || c.vsync == Drop ==> p.nb == 1 && p.prev == 0)
      && ((c.vsync == Cfr || c.vsync == Vscfr) && !LateStart(c, next, frameNumber, f) ==> p.base == next)
  {
    LlrintNear(f.ipts);
  }

  /** The repetition is over the limit, so that it is given up. */
  predicate GivenUp(c: Config, s: State, f: Frame) {
    var n := Llrint(Span(c, s.nextPts, s.frameNumber, f));
    var gap := Gap(c, s.nextPts, s.frameNumber, f);
    && Stretched(c, s.nextPts, s.frameNumber, f)
    && n as real > c.dupLimit * 30.0
    && n > Bit(gap && s.lastDropped != 0) + Bit(!gap || n > Llrint(f.ipts - s.nextPts as real - 0.6))
  }

  lemma PlanShape(c: Config, next: int, frameNumber: int, f: Frame)
    ensures var p := Decide(c, next, frameNumber, f);
      && 0 <= p.nb && 0 <= p.prev
      && (!Stretched(c, next, frameNumber, f) ==> p.nb <= 1 && p.prev == 0)
      && (Stretched(c, next, frameNumber, f) ==>
            && p.nb == Llrint(Span(c, next, frameNumber, f)) >= 1
            && p.prev == (if Gap(c, next, frameNumber, f) then Llrint(f.ipts - next as real - 0.6) else 0)
            && (p.prev != 0 <==> Gap(c, next, frameNumber, f)))
  {
  }

  lemma GivenUpIff(c: Config, s: State, f: Frame)
    ensures var p := Decide(c, s.nextPts, s.frameNumber, f);
      TooMany(c, s, p.nb, p.prev) <==> GivenUp(c, s, f)
  {
    hide Llrint, Decide;
    PlanShape(c, s.nextPts, s.frameNumber, f);
  }

  /** A repetition given up takes a pending frame with it that is booked as dropped but stays pending. */
  predicate PendingLost(c: Config, s: State, f: Frame) {
    GivenUp(c, s, f) && !Gap(c, s.nextPts, s.frameNumber, f) && s.lastDropped != 0
  }

  /** What one frame adds to the imbalance. */
  function FrameError(c: Config, s: State, f: Frame): int {
    if GivenUp(c, s, f) then Bit(PendingLost(c, s, f)) else -Bit(PrevTooOften(c, s.nextPts, s.frameNumber, f))
  }

  lemma {:induction false} EmitLength(out: seq<Output>, next: int, before: int, prev: int, now: int, n: nat)
    ensures |Emit(out, next, before, prev, now, n)| == |out| + n
  {
    if n > 0 {
      EmitLength(out, next, before, prev, now, n - 1);
    }
  }

  lemma PlanNonnegative(c: Config, next: int, frameNumber: int, f: Frame)
    ensures Decide(c, next, frameNumber, f).nb >= 0 && Decide(c, next, frameNumber, f).prev >= 0
  {
  }

  /** One frame, every output frame accepted: exactly how far the counters move apart. */
  lemma ImbalanceStep(c: Config, s: State, f: Frame, accepts: nat)
    requires StateOk(s) && accepts >= Decide(c, s.nextPts, s.frameNumber, f).nb
    ensures Imbalance(Receive(c, s, f, accepts)) == Imbalance(s) + FrameError(c, s, f)
  {
    var p := Decide(c, s.nextPts, s.frameNumber, f);
    PlanShape(c, s.nextPts, s.frameNumber, f);
    GivenUpIff(c, s, f);
    PrevTooOftenIff(c, s.nextPts, s.frameNumber, f);
    hide Decide, Llrint, GivenUp, PrevTooOften, Span, Gap, Stretched;
    var nb := if TooMany(c, s, p.nb, p.prev) then 0 else p.nb;
    EmitLength(s.out, p.base, IdOf(s.last, Picture(f.id)), p.prev, f.id, nb);
  }

  /** One frame keeps the balance exactly under a condition on the frame and the state before it. */
  lemma BalanceStep(c: Config, s: State, f: Frame, accepts: nat)
    requires StateOk(s) && Balanced(s)
    requires accepts >= Decide(c, s.nextPts, s.frameNumber, f).nb
    ensures Balanced(Receive(c, s, f, accepts)) <==>
      !PendingLost(c, s, f) && (PrevTooOften(c, s.nextPts, s.frameNumber, f) ==> GivenUp(c, s, f))
  {
    hide GivenUp, PrevTooOften, Decide, Receive;
    ImbalanceStep(c, s, f, accepts);
  }

  /** With a nonnegative duration the previous picture is never asked for too often. */
  lemma PrevWithinFrames(c: Config, next: int, frameNumber: int, f: Frame)
    requires f.duration >= 0.0
    ensures !PrevTooOften(c, next, frameNumber, f)
    ensures Decide(c, next, frameNumber, f).prev <= Decide(c, next, frameNumber, f).nb
  {
    var start := f.ipts - next as real;
    LlrintMonotone(start - 0.6, start + f.duration);
    PrevTooOftenIff(c, next, frameNumber, f);
  }

  lemma EndsBeforeItStarts(c: Config, f: Frame)
    requires c == Config(Cfr, 0.0, 3600.0) && f == Frame(10.0, -5.0, 1)
    ensures Decide(c, 0, 0, f).nb == 5 && PrevTooOften(c, 0, 0, f) && !GivenUp(c, START, f)
  {
    assert Llrint(5.0) == 5 && Llrint(10.0 - 0.6) == 9;
    assert Decide(c, 0, 0, f) == Plan(5, 9, 0);
  }

  /** A frame with a negative duration can unbalance the counters. */
  lemma NegativeDurationUnbalances()
    ensures var c := Config(Cfr, 0.0, 3600.0);
      !Balanced(Receive(c, START, Frame(10.0, -5.0, 1), 100))
  {
    hide Receive, Decide, PrevTooOften, GivenUp;
    var c, f := Config(Cfr, 0.0, 3600.0), Frame(10.0, -5.0, 1);
    EndsBeforeItStarts(c, f);
    BalanceStep(c, START, f, 100);
  }

  /** A whole input: frame by frame, with enough room at the consumer. */
  function ReceiveAll(c: Config, s: State, frames: seq<Frame>, accepts: seq<nat>): State
    requires |frames| == |accepts|
  {
    if frames == [] then s
    else
      var m := |frames| - 1;
      Receive(c, ReceiveAll(c, s, frames[..m], accepts[..m]), frames[m], accepts[m])
  }

  /** Nothing refuses an output frame during the run. */
  ghost predicate Accepted(c: Config, s: State, frames: seq<Frame>, accepts: seq<nat>)
    requires |frames| == |accepts|
  {
    frames == [] ||
      (var m := |frames| - 1;
       && Accepted(c, s, frames[..m], accepts[..m])
       && (var t := ReceiveAll(c, s, frames[..m], accepts[..m]);
           accepts[m] >= Decide(c, t.nextPts, t.frameNumber, frames[m]).nb))
  }

  /** Besides, no repetition is given up. */
  ghost predicate Smooth(c: Config, s: State, frames: seq<Frame>, accepts: seq<nat>)
    requires |frames| == |accepts|
  {
    frames == [] ||
      (var m := |frames| - 1;
       && Smooth(c, s, frames[..m], accepts[..m])
       && (var t := ReceiveAll(c, s, frames[..m], accepts[..m]);
           var p := Decide(c, t.nextPts, t.frameNumber, frames[m]);
           accepts[m] >= p.nb && !TooMany(c, t, p.nb, p.prev)))
  }

  lemma ReceiveOk(c: Config, s: State, f: Frame, accepts: nat)
    requires StateOk(s)
    ensures StateOk(Receive(c, s, f, accepts))
  {
    var p := Decide(c, s.nextPts, s.frameNumber, f);
    PlanNonnegative(c, s.nextPts, s.frameNumber, f);
    var nb := if TooMany(c, s, p.nb, p.prev) then 0 else p.nb;
    EmitLength(s.out, p.base, IdOf(s.last, Picture(f.id)), p.prev, f.id, Min(nb, accepts));
  }

  /** The errors of all frames of a run. */
  function Errors(c: Config, frames: seq<Frame>, accepts: seq<nat>): int
    requires |frames| == |accepts|
  {
    if frames == [] then 0
    else
      var m := |frames| - 1;
      Errors(c, frames[..m], accepts[..m]) + FrameError(c, ReceiveAll(c, START, frames[..m], accepts[..m]), frames[m])
  }

  /** What holds after any frames that were all accepted. */
  ghost predicate RunOk(s: State, received: nat) {
    && StateOk(s) && s.received == received
    && s.hist[0] >= 0 && s.hist[1] >= 0 && s.hist[2] >= 0
    && (received > 0 ==> s.last.Picture?)
    && (received == 0 ==> s == START)
  }

  lemma RunStep(c: Config, s: State, f: Frame, accepts: nat)
    requires s.received >= 0 && RunOk(s, s.received) && accepts >= Decide(c, s.nextPts, s.frameNumber, f).nb
    ensures RunOk(Receive(c, s, f, accepts), s.received + 1)
  {
    ReceiveOk(c, s, f, accepts);
    PlanNonnegative(c, s.nextPts, s.frameNumber, f);
    hide Decide, Emit;
  }

  /** Over every accepted input, in every mode: the imbalance is the sum of the errors of its frames. */
  lemma {:induction false} FramesAccounted(c: Config, frames: seq<Frame>, accepts: seq<nat>)
    requires |frames| == |accepts| && Accepted(c, START, frames, accepts)
    ensures var s := ReceiveAll(c, START, frames, accepts);
      RunOk(s, |frames|) && Imbalance(s) == Errors(c, frames, accepts)
  {
    if frames != [] {
      hide Receive, Decide, FrameError, Imbalance;
      var m := |frames| - 1;
      FramesAccounted(c, frames[..m], accepts[..m]);
      var s := ReceiveAll(c, START, frames[..m], accepts[..m]);
      ImbalanceStep(c, s, frames[m], accepts[m]);
      RunStep(c, s, frames[m], accepts[m]);
    } else {
      assert Imbalance(START) == 0;
    }
  }

  /** No pending frame is lost with a repetition that is given up. */
  ghost predicate NeverLost(c: Config, frames: seq<Frame>, accepts: seq<nat>)
    requires |frames| == |accepts|
  {
    frames == [] ||
      (var m := |frames| - 1;
       && NeverLost(c, frames[..m], accepts[..m])
       && !PendingLost(c, ReceiveAll(c, START, frames[..m], accepts[..m]), frames[m]))
  }

  lemma {:induction false} ErrorsNonnegative(c: Config, frames: seq<Frame>, accepts: seq<nat>)
    requires |frames| == |accepts| && forall k :: 0 <= k < |frames| ==> frames[k].duration >= 0.0
    ensures Errors(c, frames, accepts) >= 0
    ensures Errors(c, frames, accepts) == 0 <==> NeverLost(c, frames, accepts)
  {
    if frames != [] {
      hide ReceiveAll, GivenUp, PrevTooOften, Decide;
      var m := |frames| - 1;
      ErrorsNonnegative(c, frames[..m], accepts[..m]);
      var s := ReceiveAll(c, START, frames[..m], accepts[..m]);
      PrevWithinFrames(c, s.nextPts, s.frameNumber, frames[m]);
    }
  }

  /** With nonnegative durations the counters balance if and only if no pending frame was lost. */
  lemma ConservedIff(c: Config, frames: seq<Frame>, accepts: seq<nat>)
    requires |frames| == |accepts| && Accepted(c, START, frames, accepts)
    requires forall k :: 0 <= k < |frames| ==> frames[k].duration >= 0.0
    ensures Balanced(ReceiveAll(c, START, frames, accepts)) <==> NeverLost(c, frames, accepts)
  {
    hide ReceiveAll, Accepted, Imbalance;
    FramesAccounted(c, frames, accepts);
    ErrorsNonnegative(c, frames, accepts);
    hide Errors, NeverLost;
    assert Balanced(ReceiveAll(c, START, frames, accepts)) <==> Imbalance(ReceiveAll(c, START, frames, accepts)) == 0;
  }

  lemma {:induction false} SmoothAccepted(c: Config, frames: seq<Frame>, accepts: seq<nat>)
    requires |frames| == |accepts| && Smooth(c, START, frames, accepts)
    ensures Accepted(c, START, frames, accepts) && NeverLost(c, frames, accepts)
  {
    if frames != [] {
      hide ReceiveAll, Decide, GivenUp, TooMany;
      var m := |frames| - 1;
      SmoothAccepted(c, frames[..m], accepts[..m]);
      GivenUpIff(c, ReceiveAll(c, START, frames[..m], accepts[..m]), frames[m]);
    }
  }

  /** Over every input of frames with nonnegative durations, in every mode: nothing is lost track of. */
  lemma FramesConserved(c: Config, frames: seq<Frame>, accepts: seq<nat>)
    requires |frames| == |accepts| && Smooth(c, START, frames, accepts)
    requires forall k :: 0 <= k < |frames| ==> frames[k].duration >= 0.0
    ensures var s := ReceiveAll(c, START, frames, accepts);
      StateOk(s) && s.received == |frames| && Balanced(s)
  {
    hide ReceiveAll, Smooth, Balanced, NeverLost;
    SmoothAccepted(c, frames, accepts);
    FramesAccounted(c, frames, accepts);
    ConservedIff(c, frames, accepts);
  }

  // ---------------------------------------------------------------- the balance at the end of input

  /**
   Once a frame has been sent: a pending frame is booked as dropped twice, or the last repetition is
   over the limit and booked as a drop.
   */
  predicate EndFails(c: Config, s: State, gotFrame: bool) {
    gotFrame &&
    (|| (Tail(s) == 0 && s.lastDropped != 0)
     || (Tail(s) > Bit(s.lastDropped != 0) && Tail(s) as real > c.dupLimit * 30.0))
  }

  /**
   After every accepted input: the repeat count is not negative, and the end adds one to the
   imbalance exactly in the two failing cases, and only if a frame has been sent.
   */
  lemma EndAccounted(c: Config, frames: seq<Frame>, accepts: seq<nat>, gotFrame: bool, atEnd: nat)
    requires |frames| == |accepts| && Accepted(c, START, frames, accepts)
    requires atEnd >= Tail(ReceiveAll(c, START, frames, accepts))
    ensures var s := ReceiveAll(c, START, frames, accepts);
      && Tail(s) >= 0
      && Imbalance(Finish(c, s, gotFrame, atEnd)) == Errors(c, frames, accepts) + Bit(EndFails(c, s, gotFrame))
  {
    FramesAccounted(c, frames, accepts);
    hide ReceiveAll, Accepted, Errors, Emit;
    var s := ReceiveAll(c, START, frames, accepts);
    var m := Tail(s);
    var n: nat := Min(if TooMany(c, s, m, m) || s.last == NoPicture then 0 else Positive(m), atEnd);
    EmitLength(s.out, s.nextPts, IdOf(s.last, s.last), m, IdOf(s.last, s.last), n);
  }

  /** A balanced input stays balanced at its end if and only if neither case applies. */
  lemma BalanceEnd(c: Config, frames: seq<Frame>, accepts: seq<nat>, gotFrame: bool, atEnd: nat)
    requires |frames| == |accepts| && Accepted(c, START, frames, accepts)
    requires atEnd >= Tail(ReceiveAll(c, START, frames, accepts))
    requires Balanced(ReceiveAll(c, START, frames, accepts))
    ensures Balanced(Finish(c, ReceiveAll(c, START, frames, accepts), gotFrame, atEnd)) <==>
      !EndFails(c, ReceiveAll(c, START, frames, accepts), gotFrame)
  {
    hide ReceiveAll, Accepted, Errors, Finish, EndFails;
    FramesAccounted(c, frames, accepts);
    EndAccounted(c, frames, accepts, gotFrame, atEnd);
  }

  /** An input whose only frame is dropped balances at its end unless another output has sent a frame. */
  lemma NothingSentBalances(gotFrame: bool)
    ensures var c, frames := Config(Cfr, 0.0, 3600.0), [Frame(-3.0, 1.0, 1)];
      && Accepted(c, START, frames, [99]) && ReceiveAll(c, START, frames, [99]).out == []
      && (Balanced(Finish(c, ReceiveAll(c, START, frames, [99]), gotFrame, 99)) <==> !gotFrame)
  {
    var c, f := Config(Cfr, 0.0, 3600.0), Frame(-3.0, 1.0, 1);
    assert [f][..0] == [] && [99][..0] == [];
    assert Decide(c, 0, 0, f) == Plan(0, 0, 0);
    assert ReceiveAll(c, START, [f], [99]) == START.(lastDropped := 1, received := 1, last := Picture(1));
    BalanceEnd(c, [f], [99], gotFrame, 99);
  }

  lemma TwoFrames(c: Config, a: Frame, b: Frame, x: nat)
    ensures ReceiveAll(c, START, [a, b], [x, x]) == Receive(c, Receive(c, START, a, x), b, x)
    ensures Accepted(c, START, [a, b], [x, x]) <==>
      x >= Decide(c, 0, 0, a).nb
      && var t := Receive(c, START, a, x); x >= Decide(c, t.nextPts, t.frameNumber, b).nb
  {
    hide Receive, Decide;
    assert [a, b][..1] == [a] && [x, x][..1] == [x] && [a][..0] == [] && [x][..0] == [];
    assert ReceiveAll(c, START, [a], [x]) == Receive(c, START, a, x);
    assert Accepted(c, START, [a], [x]) <==> x >= Decide(c, 0, 0, a).nb;
  }

  lemma ThreeFrames(c: Config, a: Frame, b: Frame, d: Frame, x: nat)
    ensures ReceiveAll(c, START, [a, b, d], [x, x, x]) == Receive(c, ReceiveAll(c, START, [a, b], [x, x]), d, x)
    ensures Accepted(c, START, [a, b, d], [x, x, x]) <==>
      Accepted(c, START, [a, b], [x, x])
      && var t := ReceiveAll(c, START, [a, b], [x, x]); x >= Decide(c, t.nextPts, t.frameNumber, d).nb
  {
    hide Receive, Decide;
    assert [a, b, d][..2] == [a, b] && [x, x, x][..2] == [x, x];
  }

  /** The first frame of the inputs below goes out as it is. */
  lemma Opening(c: Config)
    requires c.vsync == Cfr && c.dropThreshold == 0.0
    ensures Decide(c, 0, 0, Frame(0.0, 1.0, 1)).nb == 1
    ensures Receive(c, START, Frame(0.0, 1.0, 1), 99) == State(1, 1, [0, 0, 0], 0, 0, 0, Picture(1), 1, [Output(0, 1)])
  {
    assert Decide(c, 0, 0, Frame(0.0, 1.0, 1)) == Plan(1, 0, 0);
    assert Emit([], 0, 1, 0, 1, 1) == [Output(0, 1)];
  }

  /** A frame from long before the output position is dropped. */
  lemma TooLate(c: Config, s: State)
    requires c.vsync == Cfr && c.dropThreshold == 0.0 && s.nextPts == 1 && s.lastDropped == 0 && |s.hist| == 3
    ensures Decide(c, 1, s.frameNumber, Frame(-3.0, 1.0, 2)).nb == 0
    ensures Receive(c, s, Frame(-3.0, 1.0, 2), 99)
         == s.(hist := [0, s.hist[0], s.hist[1]], lastDropped := 1, received := s.received + 1, last := Picture(2))
  {
    assert Decide(c, 1, s.frameNumber, Frame(-3.0, 1.0, 2)) == Plan(0, 0, 1);
  }

  /** A frame after a gap of nine output frames is given up when only three may be repeated. */
  lemma GapGivenUp(c: Config, s: State)
    requires c == Config(Cfr, 0.0, 0.1) && s.nextPts == 1 && s.lastDropped == 0 && |s.hist| == 3
    ensures Decide(c, 1, s.frameNumber, Frame(10.0, 1.0, 2)).nb == 10
    ensures Receive(c, s, Frame(10.0, 1.0, 2), 99)
         == s.(hist := [8, s.hist[0], s.hist[1]], nbDrop := s.nbDrop + 1, received := s.received + 1, last := Picture(2))
  {
    assert Llrint(10.0) == 10 && Llrint(8.4) == 8;
    assert Decide(c, 1, s.frameNumber, Frame(10.0, 1.0, 2)) == Plan(10, 8, 1);
  }

  /** A frame dropped as too late just before the end of input is counted twice. */
  lemma PendingAtEndUnbalances()
    ensures var c, frames, accepts := Config(Cfr, 0.0, 3600.0), [Frame(0.0, 1.0, 1), Frame(-3.0, 1.0, 2)], [99, 99];
      && Accepted(c, START, frames, accepts) && Balanced(ReceiveAll(c, START, frames, accepts))
      && !Balanced(Finish(c, ReceiveAll(c, START, frames, accepts), true, 99))
  {
    hide Receive, Decide, Finish;
    var c, a, b := Config(Cfr, 0.0, 3600.0), Frame(0.0, 1.0, 1), Frame(-3.0, 1.0, 2);
    TwoFrames(c, a, b, 99);
    Opening(c);
    TooLate(c, Receive(c, START, a, 99));
    BalanceEnd(c, [a, b], [99, 99], true, 99);
  }

  /** A repetition over the limit at the end of input is booked as a drop although nothing was received. */
  lemma RepetitionAtEndUnbalances()
    ensures var f := Frame(10.0, 1.0, 2);
      var c, frames, accepts := Config(Cfr, 0.0, 0.1), [Frame(0.0, 1.0, 1), f, f], [99, 99, 99];
      && Accepted(c, START, frames, accepts) && Balanced(ReceiveAll(c, START, frames, accepts))
      && !Balanced(Finish(c, ReceiveAll(c, START, frames, accepts), true, 99))
  {
    hide Receive, Decide, Finish;
    var c, a, f := Config(Cfr, 0.0, 0.1), Frame(0.0, 1.0, 1), Frame(10.0, 1.0, 2);
    TwoFrames(c, a, f, 99);
    ThreeFrames(c, a, f, f, 99);
    Opening(c);
    GapGivenUp(c, Receive(c, START, a, 99));
    GapGivenUp(c, Receive(c, Receive(c, START, a, 99), f, 99));
    hide ReceiveAll, Accepted;
    BalanceEnd(c, [a, f, f], [99, 99, 99], true, 99);
  }

  /** A pending frame is lost with a long frame whose repetition is given up. */
  lemma PendingLostUnbalances()
    ensures var c := Config(Cfr, 0.0, 0.1);
      var frames, accepts := [Frame(0.0, 1.0, 1), Frame(-3.0, 1.0, 2), Frame(1.0, 10.0, 3)], [99, 99, 99];
      Accepted(c, START, frames, accepts) && !Balanced(ReceiveAll(c, START, frames, accepts))
  {
    hide Receive, Accepted, ReceiveAll;
    var c, a, b, f := Config(Cfr, 0.0, 0.1), Frame(0.0, 1.0, 1), Frame(-3.0, 1.0, 2), Frame(1.0, 10.0, 3);
    TwoFrames(c, a, b, 99);
    ThreeFrames(c, a, b, f, 99);
    Opening(c);
    TooLate(c, Receive(c, START, a, 99));
    var u := Receive(c, Receive(c, START, a, 99), b, 99);
    assert Llrint(10.0) == 10;
    assert Decide(c, 1, 1, f) == Plan(10, 0, 1);
    assert PendingLost(c, u, f);
    BalanceStep(c, u, f, 99);
  }

  // ---------------------------------------------------------------- which picture is shown

  lemma {:induction false} EmitAt(out: seq<Output>, next: int, before: int, prev: int, now: int, n: nat)
    ensures var r := Emit(out, next, before, prev, now, n);
      && |r| == |out| + n && r[..|out|] == out
      && forall k :: |out| <= k < |r| ==> r[k] == Output(next + (k - |out|), if k - |out| < prev then before else now)
  {
    if n > 0 {
      EmitAt(out, next, before, prev, now, n - 1);
      var r := Emit(out, next, before, prev, now, n - 1);
      assert Emit(out, next, before, prev, now, n)[..|out|] == r[..|out|];
    }
  }

  /**
   What one frame adds to the output: consecutive timestamps, first the previous picture as often as
   decided, then the new one; a very first frame has no previous picture and is shown throughout. The
   new picture becomes the previous one unless an output frame was refused.
   */
  lemma ReceiveShows(c: Config, s: State, f: Frame, accepts: nat)
    ensures var p, t := Decide(c, s.nextPts, s.frameNumber, f), Receive(c, s, f, accepts);
      && t.last == (if accepts < p.nb && !TooMany(c, s, p.nb, p.prev) then s.last else Picture(f.id))
      && t.nextPts == p.base + (|t.out| - |s.out|) && t.frameNumber == s.frameNumber + (|t.out| - |s.out|)
      && |s.out| <= |t.out| && t.out[..|s.out|] == s.out
      && forall k :: |s.out| <= k < |t.out| ==>
           && t.out[k].pts == p.base + (k - |s.out|)
           && t.out[k].id == (if k - |s.out| < p.prev && s.last.Picture? then s.last.id else f.id)
  {
    hide Decide, Llrint;
    var p := Decide(c, s.nextPts, s.frameNumber, f);
    var n: nat := Min(Positive(if TooMany(c, s, p.nb, p.prev) then 0 else p.nb), accepts);
    EmitAt(s.out, p.base, IdOf(s.last, Picture(f.id)), p.prev, f.id, n);
  }

  lemma AllButLast(c: Config, frames: seq<Frame>, accepts: seq<nat>, m: nat)
    requires |frames| == |accepts| && m < |frames|
    ensures ReceiveAll(c, START, frames[..m + 1], accepts[..m + 1])
         == Receive(c, ReceiveAll(c, START, frames[..m], accepts[..m]), frames[m], accepts[m])
  {
    assert frames[..m + 1][..m] == frames[..m] && accepts[..m + 1][..m] == accepts[..m];
  }

  lemma LastStep(c: Config, frames: seq<Frame>, accepts: seq<nat>)
    requires |frames| == |accepts| > 0
    ensures var m := |frames| - 1;
      ReceiveAll(c, START, frames, accepts) == Receive(c, ReceiveAll(c, START, frames[..m], accepts[..m]), frames[m], accepts[m])
  {
  }

  lemma {:induction false} AcceptedPrefix(c: Config, frames: seq<Frame>, accepts: seq<nat>, m: nat)
    requires |frames| == |accepts| && m <= |frames| && Accepted(c, START, frames, accepts)
    ensures Accepted(c, START, frames[..m], accepts[..m])
    decreases |frames|
  {
    hide ReceiveAll, Decide;
    var n := |frames| - 1;
    if m == |frames| {
      assert frames[..m] == frames && accepts[..m] == accepts;
    } else {
      AcceptedPrefix(c, frames[..n], accepts[..n], m);
      assert frames[..n][..m] == frames[..m] && accepts[..n][..m] == accepts[..m];
    }
  }

  lemma {:induction false} LastReceived(c: Config, frames: seq<Frame>, accepts: seq<nat>)
    requires |frames| == |accepts| > 0 && Accepted(c, START, frames, accepts)
    ensures ReceiveAll(c, START, frames, accepts).last == Picture(frames[|frames| - 1].id)
  {
    hide Decide, Emit;
    var m := |frames| - 1;
    PlanNonnegative(c, ReceiveAll(c, START, frames[..m], accepts[..m]).nextPts,
                    ReceiveAll(c, START, frames[..m], accepts[..m]).frameNumber, frames[m]);
  }

  /**
   In every accepted input, whatever frame `m` adds to the output shows that frame or, first and as
   often as decided, the frame received just before it. What was sent earlier stays.
   */
  lemma ShowsTheNewest(c: Config, frames: seq<Frame>, accepts: seq<nat>, m: nat)
    requires |frames| == |accepts| && m < |frames| && Accepted(c, START, frames, accepts)
    ensures var s := ReceiveAll(c, START, frames[..m], accepts[..m]);
      var t, p := ReceiveAll(c, START, frames[..m + 1], accepts[..m + 1]), Decide(c, s.nextPts, s.frameNumber, frames[m]);
      && |s.out| <= |t.out| && t.out[..|s.out|] == s.out
      && forall k :: |s.out| <= k < |t.out| ==>
           && t.out[k].pts == p.base + (k - |s.out|)
           && t.out[k].id == (if m > 0 && k - |s.out| < p.prev then frames[m - 1].id else frames[m].id)
  {
    AllButLast(c, frames, accepts, m);
    AcceptedPrefix(c, frames, accepts, m);
    var s := ReceiveAll(c, START, frames[..m], accepts[..m]);
    if m > 0 {
      LastReceived(c, frames[..m], accepts[..m]);
    } else {
      assert frames[..m] == [] && s == START;
    }
    hide Receive, ReceiveAll, Decide;
    ReceiveShows(c, s, frames[m], accepts[m]);
  }

  /** Each picture by its number, at the position of its number. */
  function Numbered(frames: seq<Frame>): (r: seq<Output>)
    ensures |r| == |frames| && forall k :: 0 <= k < |r| ==> r[k] == Output(k, frames[k].id)
  {
    seq(|frames|, k requires 0 <= k < |frames| => Output(k, frames[k].id))
  }

  lemma UnitFrame(c: Config, s: State, f: Frame, accepts: nat)
    requires StateOk(s) && c.dropThreshold <= 1.0 && accepts >= 1
    requires f.duration == 1.0 && s.nextPts as real == f.ipts && s.lastDropped == 0
    ensures var t := Receive(c, s, f, accepts);
      && t.out == s.out + [Output(s.nextPts, f.id)] && t.nextPts == s.nextPts + 1
      && t.nbDup == s.nbDup && t.nbDrop == s.nbDrop && t.lastDropped == 0
  {
    assert Llrint(f.ipts) == s.nextPts;
    assert Decide(c, s.nextPts, s.frameNumber, f) == Plan(1, 0, s.nextPts);
    assert Emit(s.out, s.nextPts, IdOf(s.last, Picture(f.id)), 0, f.id, 1)
        == Emit(s.out, s.nextPts, IdOf(s.last, Picture(f.id)), 0, f.id, 0) + [Output(s.nextPts, f.id)];
  }

  ghost predicate PassedOn(s: State, frames: seq<Frame>) {
    && StateOk(s) && s.nextPts == |frames| && s.out == Numbered(frames)
    && s.nbDup == 0 && s.nbDrop == 0 && s.lastDropped == 0
  }

  lemma PassedOnStep(c: Config, s: State, frames: seq<Frame>, f: Frame, accepts: nat)
    requires PassedOn(s, frames) && c.dropThreshold <= 1.0 && accepts >= 1
    requires f.duration == 1.0 && f.ipts == |frames| as real
    ensures PassedOn(Receive(c, s, f, accepts), frames + [f])
  {
    hide Receive;
    UnitFrame(c, s, f, accepts);
    ReceiveOk(c, s, f, accepts);
    assert Numbered(frames + [f]) == Numbered(frames) + [Output(|frames|, f.id)];
  }

  lemma NothingPassed(c: Config)
    ensures PassedOn(ReceiveAll(c, START, [], []), [])
  {
  }

  /** Back-to-back frames of one tick come out as they went in, in every mode, nothing repeated or dropped. */
  lemma {:induction false} UnitFramesPass(c: Config, frames: seq<Frame>, accepts: seq<nat>)
    requires |frames| == |accepts| && c.dropThreshold <= 1.0
    requires forall k :: 0 <= k < |frames| ==>
      frames[k].ipts == k as real && frames[k].duration == 1.0 && accepts[k] >= 1
    ensures PassedOn(ReceiveAll(c, START, frames, accepts), frames)
  {
    hide *;
    if frames == [] {
      NothingPassed(c);
    } else {
      var m := |frames| - 1;
      UnitFramesPass(c, frames[..m], accepts[..m]);
      LastStep(c, frames, accepts);
      PassedOnStep(c, ReceiveAll(c, START, frames[..m], accepts[..m]), frames[..m], frames[m], accepts[m]);
      assert frames[..m] + [frames[m]] == frames;
    }
  }

  // ---------------------------------------------------------------- when a picture is shown

  /**
   Variable rate: a frame that ends no later than 0.6 before the output position is dropped; any
   other is shown once, at the position nearest to its start, or at the output position if it starts
   before that or ends less than 0.6 after it.
   */
  lemma VariableRate(c: Config, s: State, f: Frame, accepts: nat)
    requires c.vsync == Vfr && StateOk(s) && accepts >= 1
    ensures var t := Receive(c, s, f, accepts);
      if End(f) <= s.nextPts as real - 0.6 then t.out == s.out && t.nextPts == s.nextPts
      else
        && |t.out| == |s.out| + 1 && t.out[..|s.out|] == s.out
        && var o := t.out[|s.out|];
           && o.id == f.id && t.nextPts == o.pts + 1
           && (End(f) <= s.nextPts as real + 0.6 || f.ipts < s.nextPts as real ==> o.pts == s.nextPts)
           && (End(f) > s.nextPts as real + 0.6 && f.ipts >= s.nextPts as real ==>
                 f.ipts - 0.5 <= o.pts as real <= f.ipts + 0.5)
  {
    LlrintNear(f.ipts);
    var p := Decide(c, s.nextPts, s.frameNumber, f);
    EmitAt(s.out, p.base, IdOf(s.last, Picture(f.id)), p.prev, f.id, p.nb);
  }

  /**
   Constant rate: the first output that shows the new picture is the next one unless the frame starts
   more than 1.1 later, and then between 1.1 and 0.1 before its start.
   */
  lemma ShownOnTime(c: Config, s: State, f: Frame, accepts: nat)
    requires c.vsync == Cfr && StateOk(s) && s.last.Picture?
    requires var p := Decide(c, s.nextPts, s.frameNumber, f);
      accepts >= p.nb > p.prev && !TooMany(c, s, p.nb, p.prev)
    ensures var t, n := Receive(c, s, f, accepts), |s.out| + Decide(c, s.nextPts, s.frameNumber, f).prev;
      && n < |t.out| && t.out[n].id == f.id && (forall k :: |s.out| <= k < n ==> t.out[k].id == s.last.id)
      && (f.ipts - s.nextPts as real <= 1.1 ==> t.out[n].pts == s.nextPts)
      && (f.ipts - s.nextPts as real > 1.1 && End(f) - s.nextPts as real > 1.1 ==>
            f.ipts - 1.1 <= t.out[n].pts as real <= f.ipts - 0.1)
  {
    var p := Decide(c, s.nextPts, s.frameNumber, f);
    LlrintNear(f.ipts - s.nextPts as real - 0.6);
    PlanShape(c, s.nextPts, s.frameNumber, f);
    hide Llrint;
    EmitAt(s.out, p.base, s.last.id, p.prev, f.id, p.nb);
  }

  /** The end of input shows the last picture once more for each unit of the median of the last three counts. */
  lemma EndShows(c: Config, s: State, accepts: nat)
    requires StateOk(s) && s.last.Picture? && accepts >= Tail(s) >= 0 && !TooMany(c, s, Tail(s), Tail(s))
    ensures var t := Finish(c, s, true, accepts);
      && t.nextPts == s.nextPts + Tail(s) && t.frameNumber == s.frameNumber + Tail(s)
      && |t.out| == |s.out| + Tail(s) && t.out[..|s.out|] == s.out
      && forall k :: |s.out| <= k < |t.out| ==> t.out[k] == Output(s.nextPts + (k - |s.out|), s.last.id)
  {
    EmitAt(s.out, s.nextPts, s.last.id, Tail(s), s.last.id, Tail(s));
  }

  /** The counts remembered are those decided for the last three frames. */
  lemma CountsRemembered(c: Config, s: State, f: Frame, accepts: nat)
    requires StateOk(s)
    ensures Receive(c, s, f, accepts).hist == [Decide(c, s.nextPts, s.frameNumber, f).prev, s.hist[0], s.hist[1]]
  {
    hide Decide;
  }

  // ---------------------------------------------------------------- what the counters mean

  /** How often picture `id` was sent. */
  function Shows(out: seq<Output>, id: int): nat {
    if out == [] then 0
    else Shows(out[..|out| - 1], id) + if out[|out| - 1].id == id then 1 else 0
  }

  /** Of pictures `0..n`: how often they were sent beyond the first time. */
  function Repeats(out: seq<Output>, n: nat): nat {
    if n == 0 then 0
    else Repeats(out, n - 1) + if Shows(out, n - 1) > 1 then Shows(out, n - 1) - 1 else 0
  }

  /** Of pictures `0..n`: how many were never sent. */
  function Unseen(out: seq<Output>, n: nat): nat {
    if n == 0 then 0 else Unseen(out, n - 1) + if Shows(out, n - 1) == 0 then 1 else 0
  }

  lemma {:induction false} EmitCounts(out: seq<Output>, next: int, before: int, prev: nat, now: int, n: nat, id: int)
    ensures var shown := Shows(Emit(out, next, before, prev, now, n), id);
      shown == Shows(out, id) + (if id == before then Min(prev, n) else 0) + (if id == now then n - Min(prev, n) else 0)
  {
    if n > 0 {
      EmitCounts(out, next, before, prev, now, n - 1, id);
      var r := Emit(out, next, before, prev, now, n);
      assert r[..|r| - 1] == Emit(out, next, before, prev, now, n - 1);
    }
  }

  lemma {:induction false} SameCounts(a: seq<Output>, b: seq<Output>, n: nat)
    requires forall id :: 0 <= id < n ==> Shows(a, id) == Shows(b, id)
    ensures Repeats(a, n) == Repeats(b, n) && Unseen(a, n) == Unseen(b, n)
  {
    if n > 0 {
      SameCounts(a, b, n - 1);
    }
  }

  lemma {:induction false} NewUnseen(out: seq<Output>, n: nat)
    requires forall id :: 0 <= id < n ==> Shows(out, id) == 0
    ensures Repeats(out, n) == 0 && Unseen(out, n) == n
  {
    if n > 0 {
      NewUnseen(out, n - 1);
    }
  }

  /**
   The counters after frames numbered as they are received: duplicates are the repeated showings,
   drops are the pictures never shown, except that the last one may be pending.
   */
  ghost predicate Booked(s: State, m: nat) {
    && StateOk(s) && s.received == m
    && s.nbDup == Repeats(s.out, m)
    && s.nbDrop + Bit(s.lastDropped != 0) == Unseen(s.out, m)
    && (m > 0 ==> s.last == Picture(m - 1) && (s.lastDropped != 0 <==> Shows(s.out, m - 1) == 0))
    && (m == 0 ==> s == START)
    && (forall id :: id >= m ==> Shows(s.out, id) == 0)
  }

  /** The very first frame is repeated in front of itself and nowhere else. */
  predicate OnlyBeforeItself(c: Config, f: Frame) {
    var p := Decide(c, 0, 0, f);
    p.prev == p.nb && p.nb > 0
  }

  lemma BookedFirst(c: Config, f: Frame, accepts: nat)
    requires f.id == 0
    requires var p := Decide(c, 0, 0, f);
      accepts >= p.nb >= p.prev && !TooMany(c, START, p.nb, p.prev)
    ensures Booked(Receive(c, START, f, accepts), 1) <==> !OnlyBeforeItself(c, f)
  {
    var p := Decide(c, 0, 0, f);
    PlanNonnegative(c, 0, 0, f);
    ReceiveOk(c, START, f, accepts);
    hide Decide, Llrint;
    var t := Receive(c, START, f, accepts);
    assert t.out == Emit([], p.base, 0, p.prev, 0, p.nb);
    forall id: int ensures Shows(t.out, id) == if id == 0 then p.nb else 0 {
      EmitCounts([], p.base, 0, p.prev, 0, p.nb, id);
    }
    assert Repeats(t.out, 1) == if p.nb > 1 then p.nb - 1 else 0;
    assert Unseen(t.out, 1) == if p.nb == 0 then 1 else 0;
  }

  /** How the counts of all pictures move when the last one is sent `x` more times and a new one `y` times. */
  lemma CountsMove(a: seq<Output>, b: seq<Output>, m: nat, x: nat, y: nat)
    requires m > 0 && Shows(a, m) == 0
    requires forall id: int :: Shows(b, id) == Shows(a, id) + (if id == m - 1 then x else 0) + (if id == m then y else 0)
    ensures Repeats(b, m + 1)
         == Repeats(a, m) + (if Shows(a, m - 1) == 0 && x > 0 then x - 1 else x) + (if y > 0 then y - 1 else 0)
    ensures Unseen(b, m + 1)
         == Unseen(a, m) - Bit(Shows(a, m - 1) == 0 && x > 0) + Bit(y == 0)
  {
    hide Shows;
    SameCounts(a, b, m - 1);
    UnfoldCounts(a, m);
    UnfoldCounts(b, m);
    UnfoldCounts(b, m + 1);
  }

  lemma BookedNext(c: Config, s: State, f: Frame, accepts: nat, m: nat)
    requires Booked(s, m) && m > 0 && f.id == m
    requires var p := Decide(c, s.nextPts, s.frameNumber, f);
      accepts >= p.nb >= p.prev && !TooMany(c, s, p.nb, p.prev)
    ensures Booked(Receive(c, s, f, accepts), m + 1)
  {
    var p := Decide(c, s.nextPts, s.frameNumber, f);
    PlanNonnegative(c, s.nextPts, s.frameNumber, f);
    ReceiveOk(c, s, f, accepts);
    hide Decide, Llrint, Emit, StateOk;
    var t := Receive(c, s, f, accepts);
    assert t.out == Emit(s.out, p.base, m - 1, p.prev, m, p.nb);
    forall id: int
      ensures Shows(t.out, id)
           == Shows(s.out, id) + (if id == m - 1 then p.prev else 0) + (if id == m then p.nb - p.prev else 0)
    {
      EmitCounts(s.out, p.base, m - 1, p.prev, m, p.nb, id);
    }
    hide Shows;
    CountsMove(s.out, t.out, m, p.prev, p.nb - p.prev);
  }

  lemma UnfoldCounts(out: seq<Output>, n: nat)
    requires n > 0
    ensures Repeats(out, n) == Repeats(out, n - 1) + if Shows(out, n - 1) > 1 then Shows(out, n - 1) - 1 else 0
    ensures Unseen(out, n) == Unseen(out, n - 1) + if Shows(out, n - 1) == 0 then 1 else 0
  {
  }

  /**
   Over every smooth input of frames with nonnegative durations, numbered as they come: the
   duplicate counter is the number of repeated showings, and the drop counter the number of pictures
   never shown, not counting a pending one. The first frame must not be repeated only in front of itself.
   */
  lemma {:induction false} CountersMean(c: Config, frames: seq<Frame>, accepts: seq<nat>)
    requires |frames| == |accepts| > 0 && Smooth(c, START, frames, accepts)
    requires forall k :: 0 <= k < |frames| ==> frames[k].duration >= 0.0 && frames[k].id == k
    requires !OnlyBeforeItself(c, frames[0])
    ensures Booked(ReceiveAll(c, START, frames, accepts), |frames|)
  {
    hide Receive, Decide, TooMany, Booked, OnlyBeforeItself;
    var m := |frames| - 1;
    var s := ReceiveAll(c, START, frames[..m], accepts[..m]);
    PrevWithinFrames(c, s.nextPts, s.frameNumber, frames[m]);
    if m == 0 {
      assert frames[..m] == [] && s == START;
      BookedFirst(c, frames[0], accepts[0]);
    } else {
      assert frames[..m][0] == frames[0];
      CountersMean(c, frames[..m], accepts[..m]);
      BookedNext(c, s, frames[m], accepts[m], m);
    }
  }

  /** A first frame without duration, two and a half output frames late, is booked as repeated twice and pending. */
  lemma FirstFrameMiscounted()
    ensures var c, f := Config(Cfr, 0.0, 3600.0), Frame(2.5, 0.0, 0);
      && OnlyBeforeItself(c, f) && !Booked(Receive(c, START, f, 99), 1)
      && Receive(c, START, f, 99).out == [Output(0, 0), Output(1, 0)]
      && Receive(c, START, f, 99).nbDup == 2 && Receive(c, START, f, 99).lastDropped == 1
  {
    var c, f := Config(Cfr, 0.0, 3600.0), Frame(2.5, 0.0, 0);
    assert Llrint(2.5) == 2 && Llrint(2.5 - 0.6) == 2;
    assert Decide(c, 0, 0, f) == Plan(2, 2, 0);
    EmitAt([], 0, 0, 2, 0, 2);
    assert Emit([], 0, 0, 2, 0, 2) == [Output(0, 0), Output(1, 0)];
    BookedFirst(c, f, 99);
  }

  /** At the end of input, if neither failing case applies, the counters still mean the same. */
  lemma EndBooked(c: Config, s: State, accepts: nat, m: nat)
    requires Booked(s, m) && m > 0 && accepts >= Tail(s) >= 0 && !EndFails(c, s, true)
    ensures var t := Finish(c, s, true, accepts);
      t.nbDup == Repeats(t.out, m) && t.nbDrop == Unseen(t.out, m) && t.lastDropped == 0
  {
    hide Emit, StateOk;
    var n, t := Tail(s), Finish(c, s, true, accepts);
    assert t.out == Emit(s.out, s.nextPts, m - 1, n, m - 1, n);
    forall id: int ensures Shows(t.out, id) == Shows(s.out, id) + if id == m - 1 then n else 0 {
      EmitCounts(s.out, s.nextPts, m - 1, n, m - 1, n, id);
    }
    hide Shows, Tail;
    SameCounts(s.out, t.out, m - 1);
    UnfoldCounts(s.out, m);
    UnfoldCounts(t.out, m);
  }

  // ---------------------------------------------------------------- output timestamps

  ghost predicate Increasing(out: seq<Output>) {
    forall i, j :: 0 <= i < j < |out| ==> out[i].pts < out[j].pts
  }

  ghost predicate NoGaps(out: seq<Output>) {
    forall i :: 0 <= i < |out| - 1 ==> out[i + 1].pts == out[i].pts + 1
  }

  /** The next timestamp lies beyond everything sent; right behind it at a constant rate. */
  ghost predicate PtsOk(c: Config, s: State) {
    && Increasing(s.out)
    && (s.out != [] ==> s.out[|s.out| - 1].pts < s.nextPts)
    && (c.vsync == Cfr || c.vsync == Vscfr ==> NoGaps(s.out))
    && (s.out != [] && (c.vsync == Cfr || c.vsync == Vscfr) ==> s.out[|s.out| - 1].pts + 1 == s.nextPts)
  }

  lemma {:induction false} EmitIncreasing(out: seq<Output>, next: int, before: int, prev: int, now: int, n: nat)
    requires Increasing(out) && (out != [] ==> out[|out| - 1].pts < next)
    ensures var r := Emit(out, next, before, prev, now, n);
      Increasing(r) && (r != [] ==> r[|r| - 1].pts < next + n)
  {
    if n > 0 {
      EmitIncreasing(out, next, before, prev, now, n - 1);
    }
  }

  lemma {:induction false} EmitNoGaps(out: seq<Output>, next: int, before: int, prev: int, now: int, n: nat)
    requires NoGaps(out) && (out != [] ==> out[|out| - 1].pts + 1 == next)
    ensures var r := Emit(out, next, before, prev, now, n);
      NoGaps(r) && (r != [] ==> r[|r| - 1].pts + 1 == next + n)
  {
    if n > 0 {
      EmitNoGaps(out, next, before, prev, now, n - 1);
    }
  }

  /** A decision never moves the next timestamp back; at a constant rate it moves it before the first frame only. */
  lemma BaseNotBack(c: Config, next: int, frameNumber: int, f: Frame)
    requires c.vsync == Cfr || c.vsync == Vscfr || c.vsync == Vfr
    ensures var p := Decide(c, next, frameNumber, f);
      p.base >= next && (c.vsync != Vfr && frameNumber != 0 ==> p.base == next)
  {
    if f.ipts >= next as real {
      LlrintAbove(next, f.ipts);
    }
  }

  lemma ReceiveSends(c: Config, s: State, f: Frame, accepts: nat) returns (n: nat)
    ensures var p, t := Decide(c, s.nextPts, s.frameNumber, f), Receive(c, s, f, accepts);
      && t.nextPts == p.base + n
      && t.out == Emit(s.out, p.base, IdOf(s.last, Picture(f.id)), p.prev, f.id, n)
  {
    hide Decide, Emit;
    var p := Decide(c, s.nextPts, s.frameNumber, f);
    n := Min(Positive(if TooMany(c, s, p.nb, p.prev) then 0 else p.nb), accepts);
  }

  lemma PtsStep(c: Config, s: State, f: Frame, accepts: nat)
    requires c.vsync == Cfr || c.vsync == Vscfr || c.vsync == Vfr
    requires StateOk(s) && PtsOk(c, s)
    ensures PtsOk(c, Receive(c, s, f, accepts))
  {
    hide Decide, Receive, Emit, Increasing, NoGaps;
    var p := Decide(c, s.nextPts, s.frameNumber, f);
    BaseNotBack(c, s.nextPts, s.frameNumber, f);
    var n := ReceiveSends(c, s, f, accepts);
    EmitIncreasing(s.out, p.base, IdOf(s.last, Picture(f.id)), p.prev, f.id, n);
    if c.vsync != Vfr {
      EmitNoGaps(s.out, p.base, IdOf(s.last, Picture(f.id)), p.prev, f.id, n);
    }
  }

  lemma PtsEnd(c: Config, s: State, gotFrame: bool, accepts: nat)
    requires StateOk(s) && PtsOk(c, s)
    ensures PtsOk(c, Finish(c, s, gotFrame, accepts))
  {
    var m := Tail(s);
    var s1 := if m == 0 && s.lastDropped != 0 then s.(nbDrop := s.nbDrop + 1, lastDropped := s.lastDropped + 1) else s;
    var n: nat := Min(if TooMany(c, s1, m, m) || s.last == NoPicture then 0 else Positive(m), accepts);
    EmitIncreasing(s.out, s.nextPts, IdOf(s.last, s.last), m, IdOf(s.last, s.last), n);
    if c.vsync == Cfr || c.vsync == Vscfr {
      EmitNoGaps(s.out, s.nextPts, IdOf(s.last, s.last), m, IdOf(s.last, s.last), n);
    }
  }

  /**
   Over every input whatsoever, even when the consumer fails along the way, and also
   after the end of input: output timestamps strictly increase, and in the two constant
   rate modes they are consecutive.
   */
  lemma {:induction false} TimestampsIncrease(c: Config, frames: seq<Frame>, accepts: seq<nat>, gotFrame: bool, atEnd: nat)
    requires |frames| == |accepts|
    requires c.vsync == Cfr || c.vsync == Vscfr || c.vsync == Vfr
    ensures var s := ReceiveAll(c, START, frames, accepts);
      StateOk(s) && PtsOk(c, s) && PtsOk(c, Finish(c, s, gotFrame, atEnd))
  {
    if frames != [] {
      var m := |frames| - 1;
      TimestampsIncrease(c, frames[..m], accepts[..m], gotFrame, atEnd);
      var s := ReceiveAll(c, START, frames[..m], accepts[..m]);
      PtsStep(c, s, frames[m], accepts[m]);
      ReceiveOk(c, s, frames[m], accepts[m]);
    }
    PtsEnd(c, ReceiveAll(c, START, frames, accepts), gotFrame, atEnd);
  }

  // ---------------------------------------------------------------- drift

  /** How far the output lags behind the end of the input frame. */
  function Drift(s: State, f: Frame): real {
    End(f) - s.nextPts as real
  }

  /** One frame at a constant rate: a dropped frame leaves the drift, anything else brings it near zero. */
  lemma DriftStep(c: Config, s: State, f: Frame, accepts: nat)
    requires c.vsync == Cfr && c.dropThreshold == 0.0
    requires var p := Decide(c, s.nextPts, s.frameNumber, f);
      accepts >= p.nb && !TooMany(c, s, p.nb, p.prev)
    ensures var before, after := Drift(s, f), Drift(Receive(c, s, f, accepts), f);
      if before < -1.1 then after == before
      else if before <= 1.1 then -2.1 <= after <= 0.1
      else -0.5 <= after <= 0.5
  {
    var p := Decide(c, s.nextPts, s.frameNumber, f);
    PlanNonnegative(c, s.nextPts, s.frameNumber, f);
    LlrintNear(Drift(s, f));
  }

  /**
   At a constant rate, after any frames whatsoever: the output is at most half a frame behind the
   frame just handled; and it is at most 2.1 frames ahead exactly if it was not further ahead before.
   */
  lemma NeverBehind(c: Config, frames: seq<Frame>, accepts: seq<nat>)
    requires c.vsync == Cfr && c.dropThreshold == 0.0
    requires |frames| == |accepts| > 0 && Smooth(c, START, frames, accepts)
    ensures var m := |frames| - 1;
      var before, after := ReceiveAll(c, START, frames[..m], accepts[..m]), ReceiveAll(c, START, frames, accepts);
      && Drift(after, frames[m]) <= 0.5
      && (Drift(after, frames[m]) >= -2.1 <==> Drift(before, frames[m]) >= -2.1)
  {
    hide Receive, Decide, TooMany;
    var m := |frames| - 1;
    DriftStep(c, ReceiveAll(c, START, frames[..m], accepts[..m]), frames[m], accepts[m]);
  }

  /**
   Over a whole run at a constant rate, with frame ends that never go back and starting
   no more than 2.1 output frames ahead: after every frame the output is at most half a
   frame behind the input and at most 2.1 frames ahead of it.
   */
  lemma {:induction false} DriftBounded(c: Config, frames: seq<Frame>, accepts: seq<nat>)
    requires c.vsync == Cfr && c.dropThreshold == 0.0
    requires |frames| == |accepts| > 0 && Smooth(c, START, frames, accepts)
    requires forall i, j :: 0 <= i < j < |frames| ==> End(frames[i]) <= End(frames[j])
    requires Drift(START, frames[0]) >= -2.1
    ensures -2.1 <= Drift(ReceiveAll(c, START, frames, accepts), frames[|frames| - 1]) <= 0.5
  {
    var m := |frames| - 1;
    var s := ReceiveAll(c, START, frames[..m], accepts[..m]);
    if m > 0 {
      assert frames[..m][0] == frames[0] && frames[..m][m - 1] == frames[m - 1];
      DriftBounded(c, frames[..m], accepts[..m]);
    }
    DriftStep(c, s, frames[m], accepts[m]);
  }
}
