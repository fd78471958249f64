/**
 Reading an input in a loop: every pass is shifted by the length of what was read before,
 measured from the least to the greatest timestamp seen so far.
 */
module LoopOffset {
  import opened Timestamps

  // ---------------------------------------------------------------- the clock, as a value

  /** The offset of the current pass, and the least and greatest timestamps seen so far. */
  datatype Clock = Clock(duration: Timestamp, min: Timestamp, max: Timestamp)

  const SECOND: TimeBase := TimeBase(1, 1)

  function Fresh(): Clock {
    Clock(Timestamp(0, SECOND), Timestamp(NOPTS, SECOND), Timestamp(NOPTS, SECOND))
  }

  /** A packet as it is read, before the offset of the pass is added. */
  datatype Read = Read(pts: int, duration: nat, tb: TimeBase)

  predicate Timed(p: Read) {
    p.pts != NOPTS
  }

  function Start(p: Read): Timestamp {
    Timestamp(p.pts, p.tb)
  }

  /** The presentation timestamp after the offset is added. */
  function Shifted(c: Clock, p: Read): Timestamp {
    Timestamp(p.pts + Rescale(c.duration.ts, c.duration.tb, p.tb), p.tb)
  }

  /** Where the packet ends; with an audio decoder its duration is not counted. */
  function Ended(c: Clock, audio: bool, p: Read): Timestamp {
    Timestamp(Shifted(c, p).ts + if audio then 0 else p.duration, p.tb)
  }

  function Later(a: Timestamp, b: Timestamp): Timestamp {
    if a.ts == NOPTS || CompareTs(a, b) < 0 then b else a
  }

  function Earlier(a: Timestamp, b: Timestamp): Timestamp {
    if a.ts == NOPTS || CompareTs(a, b) > 0 then b else a
  }

  function Observe(c: Clock, audio: bool, p: Read): Clock {
    if !Timed(p) then c
    else Clock(c.duration, Earlier(c.min, Shifted(c, p)), Later(c.max, Ended(c, audio, p)))
  }

  /** Going back to the start of the input; `end` is the last timestamp the decoders report. */
  function Rewind(c: Clock, end: Timestamp): Clock {
    var max := if end.ts != NOPTS then Later(c.max, end) else c.max;
    var least := if c.min.ts == NOPTS then 0 else c.min.ts;
    var length := if max.ts != NOPTS then max.ts - Rescale(least, c.min.tb, max.tb) else c.duration.ts;
    Clock(Timestamp(length, max.tb), c.min, max)
  }

  // ---------------------------------------------------------------- the demuxer

  class Packet {
    var pts: int
    var dts: int
    const duration: nat
    const tb: TimeBase

    constructor (p: int, d: int, dur: nat, base: TimeBase)
      ensures pts == p && dts == d && duration == dur && tb == base
    {
      pts, dts, duration, tb := p, d, dur, base;
    }
  }

  class Demuxer {
    const haveAudioDec: bool
    var duration: Timestamp
    var minPts: Timestamp
    var maxPts: Timestamp
    var loop: int

    constructor (audio: bool, times: int)
      ensures haveAudioDec == audio && Now() == Fresh() && loop == times
    {
      haveAudioDec, loop := audio, times;
      duration, minPts, maxPts := Timestamp(0, SECOND), Timestamp(NOPTS, SECOND), Timestamp(NOPTS, SECOND);
    }

    function Now(): Clock
      reads this
    {
      Clock(duration, minPts, maxPts)
    }

    /** The part of the timestamp fix-up that adds the offset of the current pass. */
    method TsFixup(pkt: Packet)
      modifies this`minPts, this`maxPts, pkt
      ensures var c, p := old(Now()), Read(old(pkt.pts), pkt.duration, pkt.tb);
        && Now() == Observe(c, haveAudioDec, p)
        && pkt.pts == (if Timed(p) then Shifted(c, p).ts else NOPTS)
        && pkt.dts == (if old(pkt.dts) == NOPTS then NOPTS
                       else old(pkt.dts) + Rescale(c.duration.ts, c.duration.tb, pkt.tb))
    {
      hide Rescale, CompareTs;
      var offset := Rescale(duration.ts, duration.tb, pkt.tb);
      if pkt.pts != NOPTS {
        var pktDuration := if haveAudioDec then 0 else pkt.duration;
        pkt.pts := pkt.pts + offset;
        if maxPts.ts == NOPTS || CompareTs(maxPts, Timestamp(pkt.pts + pktDuration, pkt.tb)) < 0 {
          maxPts := Timestamp(pkt.pts + pktDuration, pkt.tb);
        }
        if minPts.ts == NOPTS || CompareTs(minPts, Timestamp(pkt.pts, pkt.tb)) > 0 {
          minPts := Timestamp(pkt.pts, pkt.tb);
        }
      }
      if pkt.dts != NOPTS {
        pkt.dts := pkt.dts + offset;
      }
    }

    /** Starts the next pass; `seekOk` tells whether the input could go back to its start. */
    method SeekToStart(seekOk: bool, end: Timestamp) returns (ok: bool)
      modifies this
      ensures ok == seekOk
      ensures Now() == if ok then Rewind(old(Now()), end) else old(Now())
      ensures loop == if ok && old(loop) > 0 then old(loop) - 1 else old(loop)
    {
      hide Rescale, CompareTs;
      if !seekOk {
        return false;
      }
      if end.ts != NOPTS && (maxPts.ts == NOPTS || CompareTs(maxPts, end) < 0) {
        maxPts := end;
      }
      if maxPts.ts != NOPTS {
        var least := if minPts.ts == NOPTS then 0 else minPts.ts;
        duration := duration.(ts := maxPts.ts - Rescale(least, minPts.tb, maxPts.tb));
      }
      duration := duration.(tb := maxPts.tb);
      if loop > 0 {
        loop := loop - 1;
      }
      return true;
    }
  }

  // ---------------------------------------------------------------- one pass

  /** `b` is not before `a`. */
  ghost predicate NotBefore(b: Timestamp, a: Timestamp) {
    Seconds(a) <= Seconds(b)
  }

  ghost predicate Consistent(c: Clock) {
    && c.min.ts >= NOPTS && c.max.ts >= NOPTS
    && (c.min.ts != NOPTS ==> c.max.ts != NOPTS && NotBefore(c.max, c.min))
    && (c.min.ts == NOPTS ==> c.max.ts == NOPTS || c.max.ts >= 0)
    && c.duration.ts >= 0
  }

  predicate Readable(p: Read) {
    p.pts >= NOPTS
  }

  lemma LaterIsMax(a: Timestamp, b: Timestamp)
    ensures var m := Later(a, b);
      && (m == a || m == b) && NotBefore(m, b) && (a.ts != NOPTS ==> NotBefore(m, a))
  {
    CompareExact(a, b);
  }

  lemma EarlierIsMin(a: Timestamp, b: Timestamp)
    ensures var m := Earlier(a, b);
      && (m == a || m == b) && NotBefore(b, m) && (a.ts != NOPTS ==> NotBefore(a, m))
  {
    CompareExact(a, b);
  }

  lemma ShiftedStays(c: Clock, p: Read)
    requires c.duration.ts >= 0
    ensures Shifted(c, p).ts >= p.pts
  {
    hide RescaleNear;
    RescaleNearError(c.duration.ts, c.duration.tb.num * p.tb.den, p.tb.num * c.duration.tb.den);
    var b: Positive, k: Positive := c.duration.tb.num * p.tb.den, p.tb.num * c.duration.tb.den;
    var r := RescaleNear(c.duration.ts, b, k);
    assert c.duration.ts * b >= 0;
    if r < 0 {
      MulMonotone(r, -1, k);
    }
  }

  /** A packet widens the interval seen so far to hold its start and its end. */
  lemma ObserveCovers(c: Clock, audio: bool, p: Read)
    requires Consistent(c) && Readable(p)
    ensures var n := Observe(c, audio, p);
      && Consistent(n) && n.duration == c.duration
      && (c.max.ts != NOPTS ==> n.max.ts != NOPTS && NotBefore(n.max, c.max))
      && (c.min.ts != NOPTS ==> n.min.ts != NOPTS && NotBefore(c.min, n.min))
      && (Timed(p) ==> n.min.ts != NOPTS && NotBefore(Shifted(c, p), n.min))
      && (Timed(p) ==> NotBefore(n.max, Ended(c, audio, p)))
  {
    hide CompareTs, Seconds, Rescale;
    if Timed(p) {
      ShiftedStays(c, p);
      LaterIsMax(c.max, Ended(c, audio, p));
      EarlierIsMin(c.min, Shifted(c, p));
      SecondsOrder(Shifted(c, p).ts, Ended(c, audio, p).ts, p.tb);
    }
  }

  function Play(c: Clock, audio: bool, packets: seq<Read>): Clock
    decreases packets
  {
    if packets == [] then c else Play(Observe(c, audio, packets[0]), audio, packets[1..])
  }

  predicate AllReadable(packets: seq<Read>) {
    forall k :: 0 <= k < |packets| ==> Readable(packets[k])
  }

  /** After a pass the interval holds every packet of the pass. */
  lemma {:induction false} PlayCovers(c: Clock, audio: bool, packets: seq<Read>)
    requires Consistent(c) && AllReadable(packets)
    ensures var n := Play(c, audio, packets);
      && Consistent(n) && n.duration == c.duration
      && (c.max.ts != NOPTS ==> n.max.ts != NOPTS && NotBefore(n.max, c.max))
      && (c.min.ts != NOPTS ==> n.min.ts != NOPTS && NotBefore(c.min, n.min))
      && forall k :: 0 <= k < |packets| && Timed(packets[k]) ==>
          && n.min.ts != NOPTS
          && NotBefore(n.max, Ended(c, audio, packets[k])) && NotBefore(Shifted(c, packets[k]), n.min)
    decreases packets
  {
    if packets != [] {
      hide Seconds, Rescale, CompareTs;
      var d := Observe(c, audio, packets[0]);
      ObserveCovers(c, audio, packets[0]);
      PlayCovers(d, audio, packets[1..]);
      var n := Play(c, audio, packets);
      forall k | 0 <= k < |packets| && Timed(packets[k])
        ensures n.min.ts != NOPTS
        ensures NotBefore(n.max, Ended(c, audio, packets[k])) && NotBefore(Shifted(c, packets[k]), n.min)
      {
        if k > 0 {
          var p := packets[1..][k - 1];
          assert Ended(d, audio, p) == Ended(c, audio, packets[k]) && Shifted(d, p) == Shifted(c, packets[k]);
        }
      }
    }
  }

  // ---------------------------------------------------------------- going back to the start

  predicate Reported(end: Timestamp) {
    end.ts >= NOPTS
  }

  /** Without a timed packet so far, decoders count from zero. */
  predicate EndFits(c: Clock, end: Timestamp) {
    Reported(end) && (c.min.ts == NOPTS ==> end.ts == NOPTS || end.ts >= 0)
  }

  /** The timestamp the next pass is lined up with: the least one, or zero while there is none. */
  function Floor(c: Clock): int {
    if c.min.ts == NOPTS then 0 else c.min.ts
  }

  lemma RewindKeeps(c: Clock, end: Timestamp)
    requires Consistent(c) && EndFits(c, end)
    ensures var n := Rewind(c, end);
      && Consistent(n) && n.min == c.min && n.duration.tb == n.max.tb
      && (c.max.ts != NOPTS ==> n.max.ts != NOPTS && NotBefore(n.max, c.max))
      && (end.ts != NOPTS ==> n.max.ts != NOPTS && NotBefore(n.max, end))
      && (n.max == c.max || (n.max == end && end.ts != NOPTS))
  {
    hide CompareTs, Seconds, Rescale;
    var n := Rewind(c, end);
    if end.ts != NOPTS {
      LaterIsMax(c.max, end);
    }
    if c.min.ts != NOPTS {
      RoundedNotAfter(c.min, n.max);
    } else {
      RescaleZero(c.min.tb, n.max.tb);
    }
  }

  /**
   After going back, a packet not before the least timestamp is shifted to or past the greatest
   one, up to the rounding of the two conversions between time bases.
   */
  lemma ShiftedPastEnd(c: Clock, end: Timestamp, p: Read)
    requires Consistent(c) && c.min.ts != NOPTS && Reported(end)
    requires NotBefore(Start(p), c.min)
    ensures var n := Rewind(c, end);
      Seconds(Shifted(n, p)) >= Seconds(n.max) - Slack(c.min.tb, n.max.tb) - Slack(n.max.tb, p.tb)
  {
    hide CompareTs, Seconds, Rescale, Slack;
    RewindKeeps(c, end);
    var n := Rewind(c, end);
    var least := Rescale(c.min.ts, c.min.tb, n.max.tb);
    ConversionError(c.min.ts, c.min.tb, n.max.tb);
    SecondsAdd(n.max.ts, least, n.max.tb);
    ConversionError(n.duration.ts, n.max.tb, p.tb);
    SecondsAdd(p.pts, Rescale(n.duration.ts, n.max.tb, p.tb), p.tb);
  }

  /**
   In one common time base nothing is rounded, and the condition is exact: a packet of the next
   pass lands before the greatest timestamp just when it was read before the least one, or, while
   no packet had a timestamp, before zero.
   */
  lemma BackExactlyWhenBelowFloor(c: Clock, end: Timestamp, p: Read)
    requires var n := Rewind(c, end);
      n.max.ts != NOPTS && n.max.tb == p.tb && (c.min.ts != NOPTS ==> c.min.tb == p.tb)
    ensures var n := Rewind(c, end);
      && Shifted(n, p).ts - n.max.ts == p.pts - Floor(c)
      && (NotBefore(Shifted(n, p), n.max) <==> p.pts >= Floor(c))
  {
    hide CompareTs, Seconds, Rescale;
    var n := Rewind(c, end);
    RescaleZero(c.min.tb, p.tb);
    RescaleSame(Floor(c), p.tb);
    RescaleSame(n.duration.ts, p.tb);
    SecondsOrder(n.max.ts, Shifted(n, p).ts, p.tb);
  }

  /** As long as no timestamp is known at all the offset stays what it was. */
  lemma RewindUnknown(c: Clock, end: Timestamp)
    requires c.max.ts == NOPTS && end.ts == NOPTS
    ensures Rewind(c, end).duration.ts == c.duration.ts && Rewind(c, end).max == c.max
  {
  }

  // ---------------------------------------------------------------- whole runs

  /** One pass over the input: the packets read, and the end the decoders report after it. */
  datatype Pass = Pass(packets: seq<Read>, end: Timestamp)

  predicate Sound(passes: seq<Pass>) {
    forall k :: 0 <= k < |passes| ==> AllReadable(passes[k].packets) && Reported(passes[k].end)
  }

  /** The clock at the start of pass `k`. */
  function Before(audio: bool, passes: seq<Pass>, k: nat): Clock
    requires k <= |passes|
  {
    if k == 0 then Fresh()
    else Rewind(Play(Before(audio, passes, k - 1), audio, passes[k - 1].packets), passes[k - 1].end)
  }

  /** The clock at the end of pass `k`, before going back. */
  function After(audio: bool, passes: seq<Pass>, k: nat): Clock
    requires k < |passes|
  {
    Play(Before(audio, passes, k), audio, passes[k].packets)
  }

  predicate FirstTimed(passes: seq<Pass>, first: nat) {
    |passes| > 0 && first < |passes[0].packets| && Timed(passes[0].packets[first])
  }

  lemma {:induction false} PassCovers(audio: bool, passes: seq<Pass>, first: nat, k: nat)
    requires Sound(passes) && FirstTimed(passes, first) && k < |passes|
    ensures Consistent(Before(audio, passes, k)) && Consistent(After(audio, passes, k))
    ensures After(audio, passes, k).min.ts != NOPTS
    ensures NotBefore(Start(passes[0].packets[first]), After(audio, passes, k).min)
    ensures k > 0 ==> After(audio, passes, k - 1).min.ts != NOPTS
  {
    hide Rescale, CompareTs, Seconds;
    var p := passes[0].packets[first];
    var c := Before(audio, passes, k);
    if k == 0 {
      RescaleZero(SECOND, p.tb);
      PlayCovers(c, audio, passes[0].packets);
      assert Shifted(c, p) == Start(p);
    } else {
      PassCovers(audio, passes, first, k - 1);
      RewindKeeps(After(audio, passes, k - 1), passes[k - 1].end);
      PlayCovers(c, audio, passes[k].packets);
    }
  }

  /** What was seen in pass `i` is still covered at the start of every later pass. */
  lemma {:induction false} StillCovered(audio: bool, passes: seq<Pass>, first: nat, i: nat, j: nat)
    requires Sound(passes) && FirstTimed(passes, first) && i < j < |passes|
    ensures Before(audio, passes, j).max.ts != NOPTS
    ensures NotBefore(Before(audio, passes, j).max, After(audio, passes, i).max)
  {
    hide Rescale, CompareTs, Seconds;
    PassCovers(audio, passes, first, j - 1);
    RewindKeeps(After(audio, passes, j - 1), passes[j - 1].end);
    if i < j - 1 {
      StillCovered(audio, passes, first, i, j - 1);
      PlayCovers(Before(audio, passes, j - 1), audio, passes[j - 1].packets);
    }
  }

  /**
   Looping never goes back in time. Take any packet `b` of a later pass that was read no earlier
   than some timed packet of the first pass: once shifted it is not before the end of any packet
   `a` of any earlier pass, up to half a tick for each of the two conversions between time bases.
   */
  lemma NeverGoesBack(audio: bool, passes: seq<Pass>, first: nat, i: nat, a: nat, j: nat, b: nat)
    requires Sound(passes) && FirstTimed(passes, first) && i < j < |passes|
    requires a < |passes[i].packets| && Timed(passes[i].packets[a])
    requires b < |passes[j].packets| && Timed(passes[j].packets[b])
    requires NotBefore(Start(passes[j].packets[b]), Start(passes[0].packets[first]))
    ensures var c, p := Before(audio, passes, j), passes[j].packets[b];
      Seconds(Shifted(c, p)) >= Seconds(Ended(Before(audio, passes, i), audio, passes[i].packets[a]))
                                - Slack(c.min.tb, c.max.tb) - Slack(c.max.tb, p.tb)
  {
    hide Rescale, CompareTs, Seconds, Slack;
    PassCovers(audio, passes, first, i);
    PlayCovers(Before(audio, passes, i), audio, passes[i].packets);
    StillCovered(audio, passes, first, i, j);
    PassCovers(audio, passes, first, j - 1);
    ShiftedPastEnd(After(audio, passes, j - 1), passes[j - 1].end, passes[j].packets[b]);
  }

  predicate Common(passes: seq<Pass>, tb: TimeBase) {
    forall k :: 0 <= k < |passes| ==> InBase(passes[k].packets, tb) && (passes[k].end.ts != NOPTS ==> passes[k].end.tb == tb)
  }

  predicate InBase(packets: seq<Read>, tb: TimeBase) {
    forall k :: 0 <= k < |packets| ==> packets[k].tb == tb
  }

  ghost predicate ClockInBase(c: Clock, tb: TimeBase) {
    (c.min.ts != NOPTS ==> c.min.tb == tb) && (c.max.ts != NOPTS ==> c.max.tb == tb)
  }

  lemma {:induction false} PlayInBase(c: Clock, audio: bool, packets: seq<Read>, tb: TimeBase)
    requires ClockInBase(c, tb) && InBase(packets, tb)
    ensures ClockInBase(Play(c, audio, packets), tb)
    decreases packets
  {
    if packets != [] {
      hide Rescale, CompareTs;
      PlayInBase(Observe(c, audio, packets[0]), audio, packets[1..], tb);
    }
  }

  lemma {:induction false} BeforeInBase(audio: bool, passes: seq<Pass>, tb: TimeBase, k: nat)
    requires Common(passes, tb) && k <= |passes|
    ensures ClockInBase(Before(audio, passes, k), tb)
  {
    hide Rescale, CompareTs;
    if k > 0 {
      BeforeInBase(audio, passes, tb, k - 1);
      PlayInBase(Before(audio, passes, k - 1), audio, passes[k - 1].packets, tb);
    }
  }

  /** In one common time base it is exact: no packet starts before the end of one of an earlier pass. */
  lemma NeverGoesBackExactly(audio: bool, passes: seq<Pass>, tb: TimeBase, first: nat,
                             i: nat, a: nat, j: nat, b: nat)
    requires Sound(passes) && Common(passes, tb) && FirstTimed(passes, first) && i < j < |passes|
    requires a < |passes[i].packets| && Timed(passes[i].packets[a])
    requires b < |passes[j].packets| && Timed(passes[j].packets[b])
    requires passes[j].packets[b].pts >= passes[0].packets[first].pts
    ensures Shifted(Before(audio, passes, j), passes[j].packets[b]).ts
         >= Ended(Before(audio, passes, i), audio, passes[i].packets[a]).ts
    ensures Shifted(Before(audio, passes, j), passes[j].packets[b]).ts
         >= Shifted(Before(audio, passes, i), passes[i].packets[a]).ts + if audio then 0 else passes[i].packets[a].duration
  {
    hide Rescale, CompareTs, Seconds;
    var c, d := Before(audio, passes, j), Before(audio, passes, i);
    SecondsOrder(passes[0].packets[first].pts, passes[j].packets[b].pts, tb);
    NeverGoesBack(audio, passes, first, i, a, j, b);
    BeforeInBase(audio, passes, tb, j);
    StillCovered(audio, passes, first, i, j);
    PassCovers(audio, passes, first, j - 1);
    SecondsOrder(Ended(d, audio, passes[i].packets[a]).ts, Shifted(c, passes[j].packets[b]).ts, tb);
  }

  /** Reading the very same packets on every pass never goes back, whatever they carry. */
  lemma RepeatedInputNeverGoesBack(audio: bool, passes: seq<Pass>, tb: TimeBase, i: nat, a: nat, j: nat, b: nat)
    requires Sound(passes) && Common(passes, tb) && i < j < |passes|
    requires forall k :: 0 <= k < |passes| ==> passes[k].packets == passes[0].packets
    requires a < |passes[0].packets| && Timed(passes[0].packets[a])
    requires b < |passes[0].packets| && Timed(passes[0].packets[b])
    ensures Shifted(Before(audio, passes, j), passes[0].packets[b]).ts
         >= Ended(Before(audio, passes, i), audio, passes[0].packets[a]).ts
  {
    hide Before, Shifted, Ended;
    NeverGoesBackExactly(audio, passes, tb, b, i, a, j, b);
  }

  // ---------------------------------------------------------------- exactly when a run goes back

  predicate SoFarUntimed(passes: seq<Pass>, k: nat)
    requires k < |passes|
  {
    forall i, a :: 0 <= i <= k && 0 <= a < |passes[i].packets| ==> !Timed(passes[i].packets[a])
  }

  /** Decoders that have been given no timestamp count from zero. */
  predicate Credible(passes: seq<Pass>) {
    forall k: nat :: k < |passes| && SoFarUntimed(passes, k) ==> passes[k].end.ts == NOPTS || passes[k].end.ts >= 0
  }

  lemma {:induction false} ClocksHold(audio: bool, passes: seq<Pass>, k: nat)
    requires Sound(passes) && Credible(passes) && k < |passes|
    ensures Consistent(Before(audio, passes, k)) && Consistent(After(audio, passes, k))
    ensures After(audio, passes, k).min.ts == NOPTS ==> SoFarUntimed(passes, k)
    ensures EndFits(After(audio, passes, k), passes[k].end)
    ensures k > 0 ==> Before(audio, passes, k).min == After(audio, passes, k - 1).min
  {
    hide Rescale, CompareTs, Seconds;
    if k > 0 {
      ClocksHold(audio, passes, k - 1);
      RewindKeeps(After(audio, passes, k - 1), passes[k - 1].end);
    }
    PlayCovers(Before(audio, passes, k), audio, passes[k].packets);
  }

  ghost predicate EndedIn(audio: bool, passes: seq<Pass>, i: nat, t: Timestamp)
    requires i < |passes|
  {
    exists a :: 0 <= a < |passes[i].packets| && Timed(passes[i].packets[a])
                && EndsAt(Before(audio, passes, i), audio, passes[i].packets[a], t)
  }

  /** `t` is the shifted start of the packet, or, if no audio is decoded, its duration later. */
  predicate EndsAt(c: Clock, audio: bool, p: Read, t: Timestamp) {
    && t.tb == p.tb
    && (audio ==> t.ts == Shifted(c, p).ts)
    && (!audio ==> t.ts - p.duration == Shifted(c, p).ts)
  }

  /** `t` is the end of a packet, or an end reported, before pass `k`. */
  ghost predicate Seen(audio: bool, passes: seq<Pass>, k: nat, t: Timestamp)
    requires k <= |passes|
  {
    exists i: nat :: i < k && (EndedIn(audio, passes, i, t) || (t == passes[i].end && t.ts != NOPTS))
  }

  lemma EndsAtMeans(c: Clock, audio: bool, p: Read, t: Timestamp)
    ensures EndsAt(c, audio, p, t) <==> t == Ended(c, audio, p)
  {
  }

  lemma EndedBelowMax(audio: bool, passes: seq<Pass>, i: nat, t: Timestamp)
    requires Sound(passes) && Credible(passes) && i < |passes| && EndedIn(audio, passes, i, t)
    ensures After(audio, passes, i).max.ts != NOPTS && NotBefore(After(audio, passes, i).max, t)
  {
    hide Rescale, CompareTs, Seconds, Before, Shifted;
    ClocksHold(audio, passes, i);
    PlayCovers(Before(audio, passes, i), audio, passes[i].packets);
    var a :| 0 <= a < |passes[i].packets| && Timed(passes[i].packets[a])
             && EndsAt(Before(audio, passes, i), audio, passes[i].packets[a], t);
    EndsAtMeans(Before(audio, passes, i), audio, passes[i].packets[a], t);
  }

  /** One more pass keeps the greatest timestamp where it was, or moves it on. */
  lemma MaxMovesOn(audio: bool, passes: seq<Pass>, m: nat)
    requires Sound(passes) && Credible(passes) && m + 1 < |passes|
    ensures var first, mid, next := Before(audio, passes, m).max, After(audio, passes, m).max, Before(audio, passes, m + 1).max;
      && (first.ts != NOPTS ==> mid.ts != NOPTS && NotBefore(mid, first))
      && (mid.ts != NOPTS ==> next.ts != NOPTS && NotBefore(next, mid))
      && (passes[m].end.ts != NOPTS ==> next.ts != NOPTS && NotBefore(next, passes[m].end))
  {
    hide Rescale, CompareTs, Seconds, Play, Rewind;
    ClocksHold(audio, passes, m);
    PlayCovers(Before(audio, passes, m), audio, passes[m].packets);
    RewindKeeps(After(audio, passes, m), passes[m].end);
  }

  lemma {:induction false} SeenBelowMax(audio: bool, passes: seq<Pass>, k: nat, t: Timestamp)
    requires Sound(passes) && Credible(passes) && k < |passes| && Seen(audio, passes, k, t)
    ensures Before(audio, passes, k).max.ts != NOPTS && NotBefore(Before(audio, passes, k).max, t)
  {
    hide Before, After, EndedIn, Sound, Credible, Seconds;
    var m := k - 1;
    MaxMovesOn(audio, passes, m);
    if EndedIn(audio, passes, m, t) {
      EndedBelowMax(audio, passes, m, t);
    } else if Seen(audio, passes, m, t) {
      SeenBelowMax(audio, passes, m, t);
    }
  }

  lemma {:induction false} PlayMaxSeen(c: Clock, audio: bool, packets: seq<Read>)
    ensures var m := Play(c, audio, packets).max;
      m == c.max || exists a :: 0 <= a < |packets| && Timed(packets[a]) && m == Ended(c, audio, packets[a])
    decreases packets
  {
    if packets != [] {
      hide Rescale, CompareTs;
      var d, rest := Observe(c, audio, packets[0]), packets[1..];
      PlayMaxSeen(d, audio, rest);
      var m := Play(c, audio, packets).max;
      if m != d.max {
        var a :| 0 <= a < |rest| && Timed(rest[a]) && m == Ended(d, audio, rest[a]);
        assert packets[a + 1] == rest[a] && m == Ended(c, audio, packets[a + 1]);
      } else if m != c.max {
        assert m == Ended(c, audio, packets[0]);
      }
    }
  }

  /** The greatest timestamp is one that has been seen. */
  lemma {:induction false} MaxSeen(audio: bool, passes: seq<Pass>, k: nat)
    requires Sound(passes) && Credible(passes) && k < |passes| && Before(audio, passes, k).max.ts != NOPTS
    ensures Seen(audio, passes, k, Before(audio, passes, k).max)
  {
    hide Rescale, CompareTs, Seconds;
    if k > 0 {
      var m := k - 1;
      ClocksHold(audio, passes, m);
      RewindKeeps(After(audio, passes, m), passes[m].end);
      PlayMaxSeen(Before(audio, passes, m), audio, passes[m].packets);
      var t := Before(audio, passes, k).max;
      if t == After(audio, passes, m).max {
        if t != Before(audio, passes, m).max {
          assert EndedIn(audio, passes, m, t);
        } else {
          MaxSeen(audio, passes, m);
        }
      } else {
        assert t == passes[m].end;
      }
    }
  }

  /** Some packet starts before something that was seen in an earlier pass. */
  ghost predicate GoesBack(audio: bool, passes: seq<Pass>) {
    exists j: nat, b: nat, t :: j < |passes| && b < |passes[j].packets| && Timed(passes[j].packets[b])
      && Seen(audio, passes, j, t) && !NotBefore(Shifted(Before(audio, passes, j), passes[j].packets[b]), t)
  }

  /** Some packet of a later pass is read below the timestamp its pass is lined up with. */
  ghost predicate ReadBelow(audio: bool, passes: seq<Pass>) {
    exists j: nat, b: nat :: 0 < j < |passes| && b < |passes[j].packets| && Timed(passes[j].packets[b])
      && Before(audio, passes, j).max.ts != NOPTS && passes[j].packets[b].pts < Floor(After(audio, passes, j - 1))
  }

  lemma PacketBackIff(audio: bool, passes: seq<Pass>, tb: TimeBase, j: nat, b: nat)
    requires Sound(passes) && Common(passes, tb) && 0 < j < |passes| && b < |passes[j].packets|
    requires Before(audio, passes, j).max.ts != NOPTS
    ensures var c := Before(audio, passes, j);
      NotBefore(Shifted(c, passes[j].packets[b]), c.max) <==> passes[j].packets[b].pts >= Floor(After(audio, passes, j - 1))
  {
    hide Rescale, CompareTs, Seconds;
    BeforeInBase(audio, passes, tb, j);
    BeforeInBase(audio, passes, tb, j - 1);
    PlayInBase(Before(audio, passes, j - 1), audio, passes[j - 1].packets, tb);
    BackExactlyWhenBelowFloor(After(audio, passes, j - 1), passes[j - 1].end, passes[j].packets[b]);
  }

  /**
   In one time base a run goes back if and only if some packet of a later pass is read below the
   least timestamp so far, or below zero as long as there was none but an end was reported.
   */
  lemma GoesBackIff(audio: bool, passes: seq<Pass>, tb: TimeBase)
    requires Sound(passes) && Credible(passes) && Common(passes, tb)
    ensures GoesBack(audio, passes) <==> ReadBelow(audio, passes)
  {
    hide Rescale, CompareTs, Seconds, Before, After, Seen, Shifted, Floor;
    if GoesBack(audio, passes) {
      var j: nat, b: nat, t :| j < |passes| && b < |passes[j].packets| && Timed(passes[j].packets[b])
        && Seen(audio, passes, j, t) && !NotBefore(Shifted(Before(audio, passes, j), passes[j].packets[b]), t);
      NothingSeenFirst(audio, passes, j, t);
      SeenBelowMax(audio, passes, j, t);
      PacketBackIff(audio, passes, tb, j, b);
      NotBeforeTrans(Shifted(Before(audio, passes, j), passes[j].packets[b]), Before(audio, passes, j).max, t);
    }
    if ReadBelow(audio, passes) {
      var j: nat, b: nat :| 0 < j < |passes| && b < |passes[j].packets| && Timed(passes[j].packets[b])
        && Before(audio, passes, j).max.ts != NOPTS && passes[j].packets[b].pts < Floor(After(audio, passes, j - 1));
      MaxSeen(audio, passes, j);
      PacketBackIff(audio, passes, tb, j, b);
    }
  }

  lemma NothingSeenFirst(audio: bool, passes: seq<Pass>, j: nat, t: Timestamp)
    requires j <= |passes| && Seen(audio, passes, j, t)
    ensures j > 0
  {
  }

  lemma NotBeforeTrans(a: Timestamp, b: Timestamp, t: Timestamp)
    ensures NotBefore(a, b) && NotBefore(b, t) ==> NotBefore(a, t)
  {
  }

  const TICK: TimeBase := TimeBase(1, 1000)

  /**
   When the first pass reads no timestamps although the decoder produces frames, and later passes
   do read them, a run can go back: the third pass starts at 105 although the second got to 155.
   */
  lemma UntimedFirstPassGoesBack()
    ensures var untimed, p, q := Read(NOPTS, 50, TICK), Read(5, 50, TICK), Read(55, 50, TICK);
      var passes := [Pass([untimed, untimed], Timestamp(100, TICK)),
                     Pass([p, q], Timestamp(205, TICK)), Pass([p, q], Timestamp(205, TICK))];
      && Sound(passes) && Credible(passes) && Common(passes, TICK)
      && Ended(Before(true, passes, 1), true, q).ts == 155
      && Shifted(Before(true, passes, 2), p).ts == 105
      && GoesBack(true, passes)
  {
    hide Rescale;
    var untimed, p, q := Read(NOPTS, 50, TICK), Read(5, 50, TICK), Read(55, 50, TICK);
    var first, second := Pass([untimed, untimed], Timestamp(100, TICK)), Pass([p, q], Timestamp(205, TICK));
    var passes := [first, second, second];
    var none := Timestamp(NOPTS, SECOND);
    RescaleZero(SECOND, TICK);
    RescaleSame(100, TICK);
    RescaleSame(105, TICK);
    assert passes[0] == first && passes[1] == second && passes[2] == second;
    TwoPackets(Fresh(), untimed, untimed);
    var c1 := Before(true, passes, 1);
    assert Before(true, passes, 0) == Fresh();
    assert c1 == Clock(Timestamp(100, TICK), none, Timestamp(100, TICK));
    TwoPackets(c1, p, q);
    var d := Observe(c1, true, p);
    assert d == Clock(Timestamp(100, TICK), Timestamp(105, TICK), Timestamp(105, TICK));
    var e := Observe(d, true, q);
    assert e == Clock(Timestamp(100, TICK), Timestamp(105, TICK), Timestamp(155, TICK));
    var c2 := Before(true, passes, 2);
    assert c2 == Rewind(e, second.end);
    assert c2.duration == Timestamp(100, TICK);
    assert second.packets[1] == q && second.packets[0] == p;
    assert EndedIn(true, passes, 1, Timestamp(155, TICK));
    assert Seen(true, passes, 2, Timestamp(155, TICK));
    SecondsOrder(155, 105, TICK);
  }

  lemma TwoPackets(c: Clock, p: Read, q: Read)
    ensures Play(c, true, [p, q]) == Observe(Observe(c, true, p), true, q)
  {
    hide Observe;
    assert [p, q][1..] == [q] && [q][1..] == [];
    assert Play(Observe(c, true, p), true, [q]) == Observe(Observe(c, true, p), true, q);
  }
}
