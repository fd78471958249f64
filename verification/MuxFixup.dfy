/**
 Repairing timestamps just before a packet reaches the output format: no decoding
 timestamp after its presentation timestamp, and none going back within a stream.
 */
module MuxFixup {
  import opened Timestamps

  datatype MediaType = Video | Audio | Subtitle | Other

  datatype Config = Config(
    media: MediaType, streamcopy: bool, tsDrop: bool,
    noTimestamps: bool, nonStrict: bool, exitOnError: bool,
    tb: TimeBase, sampleRate: Positive)

  // ---------------------------------------------------------------- the repair, as a function

  /** The two timestamps of a packet. */
  datatype Stamps = Stamps(pts: int, dts: int)

  datatype Outcome = Fixed(s: Stamps) | Rejected

  function Max(a: int, b: int): int {
    if a > b then a else b
  }

  /** Decoding after presentation is impossible: both become `guess` moved into the range between them. */
  function Reconcile(s: Stamps, guess: int): Stamps {
    if s.dts != NOPTS && s.pts != NOPTS && s.dts > s.pts then
      var x := if guess < s.pts then s.pts else if guess > s.dts then s.dts else guess;
      Stamps(x, x)
    else s
  }

  predicate Monitored(c: Config) {
    c.media != Other
  }

  /** The least decoding timestamp that may follow `last`. */
  function Least(c: Config, last: int): int {
    if c.nonStrict then last else last + 1
  }

  /** The repair of one packet, `last` being the decoding timestamp of the packet before. */
  function Fix(c: Config, last: int, s: Stamps): Outcome {
    if c.noTimestamps then Fixed(s)
    else
      var r := Reconcile(s, last + 1);
      if Monitored(c) && r.dts != NOPTS && last != NOPTS && r.dts < Least(c, last) then
        if c.exitOnError then Rejected
        else Fixed(Stamps(if r.pts >= r.dts then Max(r.pts, Least(c, last)) else r.pts, Least(c, last)))
      else Fixed(r)
  }

  /** Nothing to repair. */
  predicate InOrder(c: Config, last: int, s: Stamps) {
    && (s.dts == NOPTS || s.pts == NOPTS || s.dts <= s.pts)
    && (s.dts == NOPTS || last == NOPTS || !Monitored(c) || s.dts >= Least(c, last))
  }

  // ---------------------------------------------------------------- the packet and its stream

  class Packet {
    var pts: int
    var dts: int
    var duration: int
    var tb: TimeBase

    constructor (p: int, d: int, dur: int, base: TimeBase)
      ensures pts == p && dts == d && duration == dur && tb == base
    {
      pts, dts, duration, tb := p, d, dur, base;
    }
  }

  function RescaleTs(ts: int, from: TimeBase, to: TimeBase): int {
    if ts == NOPTS then NOPTS else Rescale(ts, from, to)
  }

  /** The decoding timestamp of copied audio, converted through the ticks of its sample clock. */
  function CopiedAudio(c: Config, dts: int, tb: TimeBase, samples: nat, last: int): Delta {
    RescaleDelta(tb, dts, TimeBase(1, c.sampleRate), samples, last, c.tb)
  }

  /** The timestamps in the stream's time base, before any repair. */
  function Rescaled(c: Config, pts: int, dts: int, tb: TimeBase, samples: nat, last: int): Stamps {
    var drop := c.media == Video && c.tsDrop;
    if c.media == Audio && c.streamcopy then
      var d := CopiedAudio(c, dts, tb, samples, last).ts;
      Stamps(d, d)
    else Stamps(if drop then NOPTS else RescaleTs(pts, tb, c.tb), if drop then NOPTS else RescaleTs(dts, tb, c.tb))
  }

  function Min(a: int, b: int): int {
    if a < b then a else b
  }

  /** Sum minus least minus greatest: the middle one. */
  lemma MiddleOfThree(p: int, d: int, g: int)
    requires p < d
    ensures p + d + g - Min(p, Min(d, g)) - Max(p, Max(d, g)) == if g < p then p else if g > d then d else g
  {
  }

  class MuxStream {
    const c: Config
    var lastMuxDts: int
    var tsRescaleDeltaLast: int

    constructor (config: Config)
      ensures c == config && lastMuxDts == NOPTS && tsRescaleDeltaLast == NOPTS
    {
      c, lastMuxDts, tsRescaleDeltaLast := config, NOPTS, NOPTS;
    }

    /**
     Converts the packet to the stream's time base; `samples` is the length of a packet of audio
     in samples.
     */
    method Convert(pkt: Packet, samples: nat)
      requires c.media == Audio && c.streamcopy ==> pkt.dts != NOPTS
      modifies this`tsRescaleDeltaLast, pkt
      ensures Stamps(pkt.pts, pkt.dts)
           == Rescaled(c, old(pkt.pts), old(pkt.dts), old(pkt.tb), samples, old(tsRescaleDeltaLast))
      ensures tsRescaleDeltaLast
           == if c.media == Audio && c.streamcopy
              then CopiedAudio(c, old(pkt.dts), old(pkt.tb), samples, old(tsRescaleDeltaLast)).last
              else old(tsRescaleDeltaLast)
      ensures pkt.tb == c.tb
      ensures pkt.duration == if (c.media == Audio && c.streamcopy) || old(pkt.duration) > 0
                              then Rescale(old(pkt.duration), old(pkt.tb), c.tb) else old(pkt.duration)
    {
      hide Rescale, RescaleDelta;
      if c.media == Video && c.tsDrop {
        pkt.pts := NOPTS;
        pkt.dts := NOPTS;
      }
      if c.media == Audio && c.streamcopy {
        var d := CopiedAudio(c, pkt.dts, pkt.tb, samples, tsRescaleDeltaLast);
        pkt.dts := d.ts;
        tsRescaleDeltaLast := d.last;
        pkt.pts := pkt.dts;
        pkt.duration := Rescale(pkt.duration, pkt.tb, c.tb);
      } else {
        if pkt.pts != NOPTS {
          pkt.pts := Rescale(pkt.pts, pkt.tb, c.tb);
        }
        if pkt.dts != NOPTS {
          pkt.dts := Rescale(pkt.dts, pkt.tb, c.tb);
        }
        if pkt.duration > 0 {
          pkt.duration := Rescale(pkt.duration, pkt.tb, c.tb);
        }
      }
      pkt.tb := c.tb;
    }

    /** Converts the packet and repairs its timestamps. */
    method FixupTs(pkt: Packet, samples: nat) returns (ok: bool)
      requires c.media == Audio && c.streamcopy ==> pkt.dts != NOPTS
      modifies this, pkt
      ensures var s := Rescaled(c, old(pkt.pts), old(pkt.dts), old(pkt.tb), samples, old(tsRescaleDeltaLast));
        var r := Fix(c, old(lastMuxDts), s);
        && ok == r.Fixed?
        && (ok ==> Stamps(pkt.pts, pkt.dts) == r.s && lastMuxDts == pkt.dts)
        && (!ok ==> lastMuxDts == old(lastMuxDts))
      ensures pkt.tb == c.tb
    {
      hide Rescaled;
      Convert(pkt, samples);
      if !c.noTimestamps {
        if pkt.dts != NOPTS && pkt.pts != NOPTS && pkt.dts > pkt.pts {
          var guess := lastMuxDts + 1;
          MiddleOfThree(pkt.pts, pkt.dts, guess);
          pkt.dts := pkt.pts + pkt.dts + guess - Min(pkt.pts, Min(pkt.dts, guess)) - Max(pkt.pts, Max(pkt.dts, guess));
          pkt.pts := pkt.dts;
        }
        if c.media != Other && pkt.dts != NOPTS && lastMuxDts != NOPTS {
          var max := lastMuxDts + if c.nonStrict then 0 else 1;
          if pkt.dts < max {
            if c.exitOnError {
              return false;
            }
            if pkt.pts >= pkt.dts {
              pkt.pts := Max(pkt.pts, max);
            }
            pkt.dts := max;
          }
        }
      }
      lastMuxDts := pkt.dts;
      return true;
    }
  }

  // ---------------------------------------------------------------- one packet

  /** A timestamp the format can hold; the least representable one stands for "none". */
  predicate Representable(ts: int) {
    ts >= NOPTS
  }

  /** Afterwards decoding is not after presentation, and not before the packet in front. */
  lemma FixRepairs(c: Config, last: int, s: Stamps)
    requires !c.noTimestamps && Representable(s.pts) && Representable(s.dts) && Representable(last) && Fix(c, last, s).Fixed?
    ensures var r := Fix(c, last, s).s;
      && (r.dts != NOPTS && r.pts != NOPTS ==> r.dts <= r.pts)
      && (s.dts != NOPTS ==> r.dts != NOPTS)
      && (s.pts != NOPTS <==> r.pts != NOPTS)
      && (Monitored(c) && s.dts != NOPTS && last != NOPTS ==> r.dts >= Least(c, last))
  {
  }

  /** The decoding timestamp may not go back behind the packet before. */
  predicate Held(c: Config, last: int, s: Stamps) {
    (c.media == Video || c.media == Audio || c.media == Subtitle) && s.dts != NOPTS && last != NOPTS
  }

  function AtLeast(c: Config, last: int, s: Stamps, x: int): int {
    if Held(c, last, s) && x < last + (if c.nonStrict then 0 else 1) then last + (if c.nonStrict then 0 else 1) else x
  }

  /**
   What exactly is written. Decoding not after presentation: the decoding timestamp is raised to the
   least allowed, and the presentation timestamp only as far as needed to stay behind it. Decoding
   after presentation: both become the value between them that is nearest to one after the packet
   before, raised to the least allowed. A packet without the timestamp in question keeps it unset.
   */
  lemma RepairedValues(c: Config, last: int, s: Stamps)
    requires !c.noTimestamps && Representable(s.pts) && Representable(s.dts) && Fix(c, last, s).Fixed?
    ensures var r := Fix(c, last, s).s;
      && (s.dts == NOPTS ==> r == s)
      && (s.dts != NOPTS && s.pts == NOPTS ==> r == Stamps(NOPTS, AtLeast(c, last, s, s.dts)))
      && (s.dts != NOPTS && s.pts != NOPTS && s.dts <= s.pts ==>
            && r.dts == AtLeast(c, last, s, s.dts)
            && r.pts == if s.pts < r.dts then r.dts else s.pts)
      && (s.dts != NOPTS && s.pts != NOPTS && s.dts > s.pts ==>
            exists x :: NearestBetween(x, s.pts, s.dts, last + 1)
                        && r == Stamps(AtLeast(c, last, s, x), AtLeast(c, last, s, x)))
  {
    if s.dts != NOPTS && s.pts != NOPTS && s.dts > s.pts {
      var guess := last + 1;
      var x := if guess < s.pts then s.pts else if guess > s.dts then s.dts else guess;
      assert Reconcile(s, guess) == Stamps(x, x);
      assert Fix(c, last, s).s == Stamps(AtLeast(c, last, s, x), AtLeast(c, last, s, x));
      assert NearestBetween(x, s.pts, s.dts, last + 1);
    }
  }

  function Distance(a: int, b: int): nat {
    if a < b then b - a else a - b
  }

  /** `x` lies between the two bounds, and nothing between them is nearer to `goal`. */
  ghost predicate NearestBetween(x: int, low: int, high: int, goal: int) {
    low <= x <= high && forall y :: low <= y <= high ==> Distance(x, goal) <= Distance(y, goal)
  }

  /** Formats without timestamps get what came in. */
  lemma NoTimestampsUntouched(c: Config, last: int, s: Stamps)
    requires c.noTimestamps
    ensures Fix(c, last, s) == Fixed(s)
  {
  }

  /** The same point in time, up to half a tick of the new time base. */
  ghost predicate SameTime(ts: int, tb: TimeBase, r: int, to: TimeBase) {
    var x, y := Seconds(Timestamp(ts, tb)), Seconds(Timestamp(r, to));
    x - Slack(tb, to) <= y <= x + Slack(tb, to)
  }

  /**
   What the conversion in front of the repair gives: nothing for video whose timestamps are dropped;
   twice the decoding timestamp for copied audio, no further from it than half a tick, a sample, and
   rounding; otherwise each timestamp that is set at the same point in time, and no other set.
   */
  lemma ConvertedTimes(c: Config, pts: int, dts: int, tb: TimeBase, samples: nat, last: int)
    ensures var r := Rescaled(c, pts, dts, tb, samples, last);
      var samplesTb := TimeBase(1, c.sampleRate);
      && (c.media == Video && c.tsDrop ==> r == Stamps(NOPTS, NOPTS))
      && (c.media == Audio && c.streamcopy ==>
            && r.pts == r.dts
            && var x, y := Seconds(Timestamp(dts, tb)), Seconds(Timestamp(r.dts, c.tb));
               var h := Tick(tb) / 2.0 + Tick(samplesTb) + Slack(tb, c.tb) + Slack(samplesTb, c.tb);
               x - h <= y <= x + h)
      && (!(c.media == Video && c.tsDrop) && !(c.media == Audio && c.streamcopy) ==>
            && (if pts == NOPTS then r.pts == NOPTS else SameTime(pts, tb, r.pts, c.tb))
            && (if dts == NOPTS then r.dts == NOPTS else SameTime(dts, tb, r.dts, c.tb)))
  {
    hide Rescale, RescaleDelta, Seconds, Tick, Slack;
    ConversionError(pts, tb, c.tb);
    ConversionError(dts, tb, c.tb);
    DeltaClose(tb, dts, TimeBase(1, c.sampleRate), samples, last, c.tb);
  }

  /** The repair touches exactly the packets that need it. */
  lemma FixOnlyIfNeeded(c: Config, last: int, s: Stamps)
    requires !c.noTimestamps && Representable(s.pts) && Representable(s.dts) && Representable(last)
    ensures InOrder(c, last, s) <==> Fix(c, last, s) == Fixed(s)
  {
  }

  /**
   With errors fatal, a packet is rejected exactly when its decoding timestamp, as it came in, is
   below the least allowed: moving it between presentation and decoding never saves or dooms it.
   */
  lemma RejectedIff(c: Config, last: int, s: Stamps)
    requires Representable(s.pts) && Representable(s.dts)
    ensures Fix(c, last, s).Rejected? <==>
      && !c.noTimestamps && c.exitOnError && Monitored(c)
      && s.dts != NOPTS && last != NOPTS && s.dts < Least(c, last)
  {
  }

  // ---------------------------------------------------------------- whole runs

  /** The stamps written for the packets of a stream, up to the first rejection. */
  function Written(c: Config, last: int, packets: seq<Stamps>): seq<Stamps>
    decreases packets
  {
    if packets == [] then []
    else
      match Fix(c, last, packets[0])
      case Rejected => []
      case Fixed(r) => [r] + Written(c, r.dts, packets[1..])
  }

  lemma {:induction false} WrittenLength(c: Config, last: int, packets: seq<Stamps>)
    ensures |Written(c, last, packets)| <= |packets|
    ensures !c.exitOnError ==> |Written(c, last, packets)| == |packets|
    decreases packets
  {
    if packets != [] && Fix(c, last, packets[0]).Fixed? {
      WrittenLength(c, Fix(c, last, packets[0]).s.dts, packets[1..]);
    }
  }

  /** Every packet carries a decoding timestamp. */
  predicate AllTimed(packets: seq<Stamps>) {
    forall k :: 0 <= k < |packets| ==> packets[k].dts != NOPTS && packets[k].dts >= NOPTS && packets[k].pts >= NOPTS
  }

  lemma {:induction false} WrittenAbove(c: Config, last: int, packets: seq<Stamps>, k: nat)
    requires !c.noTimestamps && Monitored(c) && AllTimed(packets)
    requires last >= NOPTS && k < |Written(c, last, packets)|
    ensures var w := Written(c, last, packets);
      && w[k].dts > NOPTS
      && (last != NOPTS ==> w[k].dts >= Least(c, last))
      && (w[k].pts != NOPTS ==> w[k].dts <= w[k].pts)
    decreases packets
  {
    var r := Fix(c, last, packets[0]).s;
    FixRepairs(c, last, packets[0]);
    if k > 0 {
      WrittenAbove(c, r.dts, packets[1..], k - 1);
    }
  }

  /**
   Over a whole stream of timed audio, video or subtitle packets: decoding timestamps
   strictly increase (never decrease, for formats that allow equal ones), and none is
   after the presentation timestamp of its packet.
   */
  lemma {:induction false} DtsIncreases(c: Config, last: int, packets: seq<Stamps>, i: nat, j: nat)
    requires !c.noTimestamps && Monitored(c) && AllTimed(packets) && last >= NOPTS
    requires i < j < |Written(c, last, packets)|
    ensures var w := Written(c, last, packets);
      && (if c.nonStrict then w[i].dts <= w[j].dts else w[i].dts < w[j].dts)
      && (w[j].pts != NOPTS ==> w[j].dts <= w[j].pts)
    decreases packets
  {
    var r := Fix(c, last, packets[0]).s;
    WrittenAbove(c, last, packets, 0);
    WrittenAbove(c, last, packets, j);
    if i == 0 {
      WrittenAbove(c, r.dts, packets[1..], j - 1);
    } else {
      DtsIncreases(c, r.dts, packets[1..], i - 1, j - 1);
    }
  }

  /** Neighbours are in order even when other packets carry no timestamp. */
  lemma {:induction false} NeighboursIncrease(c: Config, last: int, packets: seq<Stamps>, k: nat)
    requires !c.noTimestamps && Monitored(c) && last >= NOPTS
    requires forall i :: 0 <= i < |packets| ==> packets[i].dts >= NOPTS && packets[i].pts >= NOPTS
    requires k + 1 < |packets| && k + 1 < |Written(c, last, packets)|
    requires packets[k].dts != NOPTS && packets[k + 1].dts != NOPTS
    ensures var w := Written(c, last, packets);
      w[k].dts != NOPTS && w[k + 1].dts >= Least(c, w[k].dts)
    decreases packets
  {
    WrittenLength(c, last, packets);
    FixRepairs(c, last, packets[0]);
    var r := Fix(c, last, packets[0]).s;
    if k == 0 {
      FixRepairs(c, r.dts, packets[1]);
    } else {
      NeighboursIncrease(c, r.dts, packets[1..], k - 1);
    }
  }

  /** One packet without a timestamp makes the stream forget: afterwards it may go back. */
  lemma UntimedPacketForgets(c: Config)
    requires !c.noTimestamps && Monitored(c)
    ensures var packets := [Stamps(10, 10), Stamps(NOPTS, NOPTS), Stamps(5, 5)];
      Written(c, NOPTS, packets) == packets && !Ordered(c, packets)
  {
    var a, b, d := Stamps(10, 10), Stamps(NOPTS, NOPTS), Stamps(5, 5);
    assert [a, b, d][1..] == [b, d] && [b, d][1..] == [d] && [d][1..] == [];
    assert Written(c, NOPTS, [d]) == [d];
    assert Written(c, 10, [b, d]) == [b] + [d];
    assert [a, b, d][0].dts == 10 && [a, b, d][2].dts == 5;
  }

  /** Where a packet is written when nothing is known of the packets before it. */
  function Settled(s: Stamps): int {
    if s.pts != NOPTS && s.dts > s.pts then s.pts else s.dts
  }

  /** After an untimed packet a timed one is written where it settles, whatever came before. */
  lemma AfterUntimed(c: Config, s: Stamps)
    requires !c.noTimestamps && Representable(s.pts) && Representable(s.dts) && s.dts != NOPTS
    ensures var r := Fix(c, NOPTS, s);
      r.Fixed? && r.s.dts == Settled(s)
  {
  }

  /** Every two timed packets are in order, whatever lies between them. */
  predicate Ordered(c: Config, w: seq<Stamps>) {
    forall i, j :: 0 <= i < j < |w| && w[i].dts != NOPTS && w[j].dts != NOPTS ==> w[j].dts >= Least(c, w[i].dts)
  }

  /** Each timed packet is above the timed one before it; `timed` is the last before these. */
  predicate Ascends(c: Config, timed: int, w: seq<Stamps>)
    decreases w
  {
    w == [] ||
    (var d := w[0].dts;
     && (d == NOPTS || timed == NOPTS || d >= Least(c, timed))
     && Ascends(c, if d == NOPTS then timed else d, w[1..]))
  }

  lemma {:induction false} AscendsIffOrdered(c: Config, timed: int, w: seq<Stamps>)
    ensures Ascends(c, timed, w) <==>
      Ordered(c, w) && (timed != NOPTS ==> forall k :: 0 <= k < |w| && w[k].dts != NOPTS ==> w[k].dts >= Least(c, timed))
    decreases w
  {
    if w != [] {
      var d, rest := w[0].dts, w[1..];
      AscendsIffOrdered(c, if d == NOPTS then timed else d, rest);
      assert forall k :: 0 < k < |w| ==> w[k] == rest[k - 1];
      assert forall k :: 0 <= k < |rest| ==> rest[k] == w[k + 1];
    }
  }

  /**
   Each timed packet right behind an untimed one settles above the last timed packet written,
   `timed`; `last` is the timestamp of the packet in front, if it had one.
   */
  predicate ResumesAbove(c: Config, last: int, timed: int, packets: seq<Stamps>)
    decreases packets
  {
    packets == [] ||
    (var s := packets[0];
     && (last == NOPTS && timed != NOPTS && s.dts != NOPTS ==> Settled(s) >= Least(c, timed))
     && match Fix(c, last, s)
        case Rejected => true
        case Fixed(r) => ResumesAbove(c, r.dts, if r.dts == NOPTS then timed else r.dts, packets[1..]))
  }

  predicate AllRepresentable(packets: seq<Stamps>) {
    forall k :: 0 <= k < |packets| ==> Representable(packets[k].pts) && Representable(packets[k].dts)
  }

  lemma {:induction false} AscendsIffResumes(c: Config, last: int, timed: int, packets: seq<Stamps>)
    requires !c.noTimestamps && Monitored(c) && AllRepresentable(packets)
    requires Representable(last) && Representable(timed) && (last == NOPTS || last == timed)
    ensures Ascends(c, timed, Written(c, last, packets)) <==> ResumesAbove(c, last, timed, packets)
    decreases packets
  {
    if packets != [] {
      var s := packets[0];
      assert Representable(s.pts) && Representable(s.dts);
      if last == NOPTS && s.dts != NOPTS {
        AfterUntimed(c, s);
      }
      if Fix(c, last, s).Fixed? {
        FixRepairs(c, last, s);
        var r := Fix(c, last, s).s;
        assert s.dts == NOPTS ==> r.dts == NOPTS;
        AscendsIffResumes(c, r.dts, if r.dts == NOPTS then timed else r.dts, packets[1..]);
        var w := Written(c, last, packets);
        assert w[0] == r && w[1..] == Written(c, r.dts, packets[1..]);
      }
    }
  }

  /**
   A whole stream of audio, video or subtitle packets, any of them without timestamps, is written
   in order if and only if every timed packet right behind an untimed one settles above the last
   timed one written.
   */
  lemma OrderedIffResumesAbove(c: Config, packets: seq<Stamps>)
    requires !c.noTimestamps && Monitored(c) && AllRepresentable(packets)
    ensures Ordered(c, Written(c, NOPTS, packets)) <==> ResumesAbove(c, NOPTS, NOPTS, packets)
  {
    AscendsIffResumes(c, NOPTS, NOPTS, packets);
    AscendsIffOrdered(c, NOPTS, Written(c, NOPTS, packets));
  }

  /** A stream already in order is written as it is. */
  lemma {:induction false} OrderedUntouched(c: Config, last: int, packets: seq<Stamps>)
    requires !c.noTimestamps && AllTimed(packets) && last >= NOPTS
    requires packets != [] ==> InOrder(c, last, packets[0])
    requires forall k :: 0 < k < |packets| ==> InOrder(c, packets[k - 1].dts, packets[k])
    ensures Written(c, last, packets) == packets
    decreases packets
  {
    if packets != [] {
      FixOnlyIfNeeded(c, last, packets[0]);
      OrderedUntouched(c, packets[0].dts, packets[1..]);
    }
  }
}
