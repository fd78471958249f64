/**
 When input loops, the demuxer flushes its decoders and waits for each to report the end
 timestamp of what it has decoded.  The report travels through a queue of capacity one.
 */
module EndTimestamps {
  import opened Timestamps

  // ---------------------------------------------------------------- one demuxer and one decoder

  /** A packet in the decoder's queue; `round` counts the demuxer's flushes. */
  datatype Packet = Data(id: int) | Flush(round: nat)

  /** The demuxer sends, waits for the report of a flush, or has given up. */
  datatype DemuxPc = Sending | Waiting | Stopped

  /** The decoder enters its receive call, then reads its queue; or it has left. */
  datatype DecPc = Entering | Reading | Leaving | Left

  /** `owed` is the round of the flush still to be reported. */
  datatype Pending = No | Yes(round: nat)

  datatype Report = Report(round: nat, stamp: Timestamp)

  datatype State = State(
    demux: DemuxPc, round: nat,
    packets: seq<Packet>, closed: bool,
    dec: DecPc, owed: Pending,
    reports: seq<Report>, recvFails: bool,
    got: seq<Report>)

  const CAPACITY := 1

  predicate Init(s: State) {
    s == State(Sending, 0, [], false, Entering, No, [], false, [])
  }

  /** The demuxer sends an ordinary packet; a closed queue takes nothing. */
  predicate SendsData(s: State, t: State, id: int) {
    s.demux == Sending && t == if s.closed then s else s.(packets := s.packets + [Data(id)])
  }

  predicate SendsFlush(s: State, t: State) {
    && s.demux == Sending
    && t == if s.closed then s.(demux := Stopped)
            else s.(demux := Waiting, round := s.round + 1, packets := s.packets + [Flush(s.round + 1)])
  }

  predicate TakesReport(s: State, t: State) {
    && s.demux == Waiting && s.reports != []
    && t == s.(demux := Sending, reports := s.reports[1..], got := s.got + [s.reports[0]])
  }

  /** No report can come any more. */
  predicate ReportFails(s: State, t: State) {
    s.demux == Waiting && s.reports == [] && s.recvFails && t == s.(demux := Stopped)
  }

  /** Entering the receive call: a pending report goes out first, if there is room. */
  predicate Enters(s: State, t: State, stamp: Timestamp) {
    && s.dec == Entering
    && (s.owed.Yes? ==> |s.reports| < CAPACITY)
    && t == if s.owed.Yes? then s.(dec := Reading, owed := No, reports := s.reports + [Report(s.owed.round, stamp)])
            else s.(dec := Reading)
  }

  predicate Reads(s: State, t: State) {
    && s.dec == Reading && s.packets != []
    && var p := s.packets[0];
       var r := s.(dec := Entering, packets := s.packets[1..]);
       t == if p.Flush? then r.(owed := Yes(p.round)) else r
  }

  /** The decoder may leave at any time: it closes its queue, then makes waiting for reports fail. */
  predicate Leaves(s: State, t: State) {
    || ((s.dec == Entering || s.dec == Reading) && t == s.(dec := Leaving, closed := true))
    || (s.dec == Leaving && t == s.(dec := Left, recvFails := true))
  }

  datatype Move = SendData(id: int) | SendFlush | Take | Fail | Enter(stamp: Timestamp) | Read | Leave

  predicate Step(s: State, t: State, m: Move) {
    match m
    case SendData(id) => SendsData(s, t, id)
    case SendFlush => SendsFlush(s, t)
    case Take => TakesReport(s, t)
    case Fail => ReportFails(s, t)
    case Enter(stamp) => Enters(s, t, stamp)
    case Read => Reads(s, t)
    case Leave => Leaves(s, t)
  }

  predicate DecoderMove(m: Move) {
    m.Enter? || m.Read? || m.Leave?
  }

  predicate Run(states: seq<State>, moves: seq<Move>) {
    && |states| == |moves| + 1 && Init(states[0])
    && forall k :: 0 <= k < |moves| ==> Step(states[k], states[k + 1], moves[k])
  }

  // ---------------------------------------------------------------- one token

  function Flushes(packets: seq<Packet>): nat {
    if packets == [] then 0 else Flushes(packets[..|packets| - 1]) + if packets[|packets| - 1].Flush? then 1 else 0
  }

  lemma {:induction false} FlushesHead(packets: seq<Packet>)
    requires packets != []
    ensures Flushes(packets) == Flushes(packets[1..]) + if packets[0].Flush? then 1 else 0
  {
    var m := |packets| - 1;
    if m > 0 {
      FlushesHead(packets[..m]);
      assert packets[..m][1..] == packets[1..][..m - 1];
    }
  }

  lemma FlushesAppend(packets: seq<Packet>, p: Packet)
    ensures Flushes(packets + [p]) == Flushes(packets) + if p.Flush? then 1 else 0
  {
    assert (packets + [p])[..|packets|] == packets;
  }

  /** Flush packets queued, the report expected, and reports queued, taken together. */
  function Tokens(s: State): nat {
    Flushes(s.packets) + (if s.owed.Yes? then 1 else 0) + |s.reports|
  }

  ghost predicate Inv(s: State) {
    && (s.demux == Sending ==> Tokens(s) == 0)
    && (s.demux == Waiting ==> Tokens(s) == 1)
    && (s.demux == Stopped ==> s.closed && Tokens(s) <= 1)
    && (s.closed <==> s.dec == Leaving || s.dec == Left)
    && (s.recvFails <==> s.dec == Left)
    // every trace of a flush belongs to the current round
    && (forall k :: 0 <= k < |s.packets| && s.packets[k].Flush? ==> s.packets[k].round == s.round)
    && (s.owed.Yes? ==> s.owed.round == s.round)
    && (forall k :: 0 <= k < |s.reports| ==> s.reports[k].round == s.round)
    // one report per completed flush, in order
    && (forall k :: 0 <= k < |s.got| ==> s.got[k].round == k + 1)
    && (s.demux == Sending ==> |s.got| == s.round)
    && (s.demux == Waiting ==> |s.got| + 1 == s.round)
  }

  lemma SendDataInv(s: State, t: State, id: int)
    requires Inv(s) && SendsData(s, t, id)
    ensures Inv(t)
  {
    FlushesAppend(s.packets, Data(id));
    hide Flushes;
    assert forall k :: 0 <= k < |t.packets| && t.packets[k].Flush? ==> k < |s.packets| && t.packets[k] == s.packets[k];
  }

  lemma SendFlushInv(s: State, t: State)
    requires Inv(s) && SendsFlush(s, t)
    ensures Inv(t)
  {
    FlushesAppend(s.packets, Flush(s.round + 1));
    NoFlush(s.packets);
    hide Flushes;
    assert !s.closed ==> forall k :: 0 <= k < |t.packets| && t.packets[k].Flush? ==> k == |s.packets|;
  }

  lemma TakeInv(s: State, t: State)
    requires Inv(s) && (TakesReport(s, t) || ReportFails(s, t))
    ensures Inv(t)
  {
  }

  lemma EnterInv(s: State, t: State, stamp: Timestamp)
    requires Inv(s) && Enters(s, t, stamp)
    ensures Inv(t)
  {
  }

  lemma ReadInv(s: State, t: State)
    requires Inv(s) && Reads(s, t)
    ensures Inv(t)
  {
    FlushesHead(s.packets);
    assert s.packets[0].Flush? ==> s.packets[0].round == s.round;
  }

  lemma LeaveInv(s: State, t: State)
    requires Inv(s) && Leaves(s, t)
    ensures Inv(t)
  {
  }

  /** Every step of either side keeps the invariant. */
  lemma StepInv(s: State, t: State, m: Move)
    requires Inv(s) && Step(s, t, m)
    ensures Inv(t)
  {
    hide Inv;
    match m
    case SendData(id) => SendDataInv(s, t, id);
    case SendFlush => SendFlushInv(s, t);
    case Take => TakeInv(s, t);
    case Fail => TakeInv(s, t);
    case Enter(stamp) => EnterInv(s, t, stamp);
    case Read => ReadInv(s, t);
    case Leave => LeaveInv(s, t);
  }

  lemma {:induction false} NoFlush(packets: seq<Packet>)
    requires Flushes(packets) == 0
    ensures forall k :: 0 <= k < |packets| ==> packets[k].Data?
  {
    if packets != [] {
      NoFlush(packets[..|packets| - 1]);
    }
  }

  lemma {:induction false} RunInv(states: seq<State>, moves: seq<Move>, k: nat)
    requires Run(states, moves) && k < |states|
    ensures Inv(states[k])
  {
    if k > 0 {
      RunInv(states, moves, k - 1);
      StepInv(states[k - 1], states[k], moves[k - 1]);
    }
  }

  /**
   While the demuxer waits there is exactly one of: the flush in the decoder's queue, the
   decoder owing a report, the report in its queue.  So a decoder that owes a report always
   finds room for it, and the report the demuxer takes answers the flush it sent.
   */
  lemma OneToken(states: seq<State>, moves: seq<Move>, k: nat)
    requires Run(states, moves) && k < |states|
    ensures var s := states[k];
      && (s.demux == Waiting ==> Tokens(s) == 1)
      && (s.owed.Yes? ==> |s.reports| < CAPACITY)
      && (s.demux == Waiting && s.reports != [] ==> s.reports[0].round == s.round)
  {
    RunInv(states, moves, k);
  }

  /** Each completed flush got exactly one report, its own. */
  lemma ReportsAnswerFlushes(states: seq<State>, moves: seq<Move>, k: nat)
    requires Run(states, moves) && k < |states| && states[k].demux == Sending
    ensures |states[k].got| == states[k].round
    ensures forall i :: 0 <= i < |states[k].got| ==> states[k].got[i].round == i + 1
  {
    RunInv(states, moves, k);
  }

  /** A report waiting in the queue or taken from it stays what it was, and in order. */
  lemma StepKeepsReports(s: State, t: State, m: Move)
    requires Step(s, t, m)
    ensures s.got + s.reports <= t.got + t.reports
    ensures |t.got + t.reports| == |s.got + s.reports| + if s.owed.Yes? && t.owed == No then 1 else 0
  {
    if m == Take {
      assert s.got + s.reports == (s.got + [s.reports[0]]) + s.reports[1..];
    }
  }

  /** Over every run: what the demuxer takes are the reports the decoder sent, in order and unchanged. */
  lemma {:induction false} ReportsStay(states: seq<State>, moves: seq<Move>, k: nat, l: nat)
    requires Run(states, moves) && k <= l < |states|
    ensures states[k].got + states[k].reports <= states[l].got + states[l].reports
    decreases l - k
  {
    if k < l {
      hide Step;
      assert Step(states[k], states[k + 1], moves[k]);
      StepKeepsReports(states[k], states[k + 1], moves[k]);
      ReportsStay(states, moves, k + 1, l);
    }
  }

  // ---------------------------------------------------------------- what the decoder has read

  /** Everything the demuxer has sent, in order: packets, and its flushes numbered from one. */
  function Given(moves: seq<Move>): seq<Packet> {
    if moves == [] then []
    else
      var before, m := moves[..|moves| - 1], moves[|moves| - 1];
      if m.SendData? then Given(before) + [Data(m.id)]
      else if m.SendFlush? then Given(before) + [Flush(FlushesSent(before) + 1)]
      else Given(before)
  }

  function FlushesSent(moves: seq<Move>): nat {
    if moves == [] then 0 else FlushesSent(moves[..|moves| - 1]) + if moves[|moves| - 1].SendFlush? then 1 else 0
  }

  /** What a move takes out of the decoder's queue. */
  function Taken(s: State, m: Move): seq<Packet> {
    if m == Read && s.packets != [] then [s.packets[0]] else []
  }

  /** Everything the decoder has read. */
  function ReadSoFar(states: seq<State>, moves: seq<Move>): seq<Packet>
    requires |states| >= |moves|
  {
    if moves == [] then []
    else ReadSoFar(states, moves[..|moves| - 1]) + Taken(states[|moves| - 1], moves[|moves| - 1])
  }

  /** Of what was given, the decoder has read `read` and will find the rest in its queue. */
  ghost predicate InTransit(s: State, given: seq<Packet>, flushes: nat, read: seq<Packet>) {
    && read + s.packets <= given
    && (!s.closed ==> given == read + s.packets && flushes == s.round)
    && (s.demux == Waiting && !s.closed ==> given != [] && given[|given| - 1].Flush?)
    && (s.owed.Yes? ==> read != [] && read[|read| - 1] == Flush(s.owed.round))
    && (s.dec == Reading ==> s.owed == No)
  }

  lemma TransitSend(s: State, t: State, p: Packet, given: seq<Packet>, flushes: nat, read: seq<Packet>)
    requires InTransit(s, given, flushes, read)
    requires (p.Data? && SendsData(s, t, p.id)) || (p == Flush(flushes + 1) && SendsFlush(s, t))
    ensures InTransit(t, given + [p], if p.Data? then flushes else flushes + 1, read)
  {
    assert !s.closed ==> given + [p] == read + (s.packets + [p]);
  }

  lemma TransitRead(s: State, t: State, given: seq<Packet>, flushes: nat, read: seq<Packet>)
    requires InTransit(s, given, flushes, read) && Reads(s, t)
    ensures InTransit(t, given, flushes, read + Taken(s, Read))
  {
    assert s.packets == [s.packets[0]] + s.packets[1..];
    assert read + s.packets == (read + [s.packets[0]]) + s.packets[1..];
  }

  lemma TransitOther(s: State, t: State, m: Move, given: seq<Packet>, flushes: nat, read: seq<Packet>)
    requires InTransit(s, given, flushes, read) && Step(s, t, m)
    requires m.Take? || m.Fail? || m.Enter? || m.Leave?
    ensures InTransit(t, given, flushes, read)
  {
  }

  lemma TransitStep(s: State, t: State, m: Move, given: seq<Packet>, flushes: nat, read: seq<Packet>)
    requires InTransit(s, given, flushes, read) && Step(s, t, m)
    ensures InTransit(t,
      if m.SendData? then given + [Data(m.id)] else if m.SendFlush? then given + [Flush(flushes + 1)] else given,
      flushes + if m.SendFlush? then 1 else 0, read + Taken(s, m))
  {
    hide InTransit, SendsData, SendsFlush, Reads;
    assert m != Read ==> read + Taken(s, m) == read;
    match m
    case SendData(id) => TransitSend(s, t, Data(id), given, flushes, read);
    case SendFlush => TransitSend(s, t, Flush(flushes + 1), given, flushes, read);
    case Read => TransitRead(s, t, given, flushes, read);
    case _ => TransitOther(s, t, m, given, flushes, read);
  }

  lemma TransitStart(states: seq<State>, moves: seq<Move>)
    requires Run(states, moves)
    ensures InTransit(states[0], Given(moves[..0]), FlushesSent(moves[..0]), ReadSoFar(states, moves[..0]))
  {
  }

  lemma {:induction false} RunTransit(states: seq<State>, moves: seq<Move>, k: nat)
    requires Run(states, moves) && k <= |moves|
    ensures InTransit(states[k], Given(moves[..k]), FlushesSent(moves[..k]), ReadSoFar(states, moves[..k]))
  {
    hide InTransit, Step, Taken;
    if k == 0 {
      TransitStart(states, moves);
    } else {
      RunTransit(states, moves, k - 1);
      assert moves[..k][..k - 1] == moves[..k - 1];
      TransitStep(states[k - 1], states[k], moves[k - 1],
        Given(moves[..k - 1]), FlushesSent(moves[..k - 1]), ReadSoFar(states, moves[..k - 1]));
    }
  }

  lemma {:induction false} FlushAtEnd(packets: seq<Packet>)
    requires packets != [] && packets[|packets| - 1].Flush?
    ensures Flushes(packets) >= 1
  {
  }

  /**
   Over every run: until the decoder leaves, what it has read and what is in its queue is what the
   demuxer has sent, in order; and when it reports the end of a flush, it has read that flush last and
   with it everything that was sent.
   */
  lemma NothingSkipped(states: seq<State>, moves: seq<Move>, k: nat)
    requires Run(states, moves) && k <= |moves|
    ensures var s, read := states[k], ReadSoFar(states, moves[..k]);
      && read + s.packets <= Given(moves[..k])
      && (!s.closed ==> read + s.packets == Given(moves[..k]))
      && (s.dec == Entering && s.owed.Yes? ==>
            read == Given(moves[..k]) && read != [] && read[|read| - 1] == Flush(s.owed.round))
  {
    RunTransit(states, moves, k);
    RunInv(states, moves, k);
    var s := states[k];
    if s.dec == Entering && s.owed.Yes? && s.packets != [] {
      FlushAtEnd(s.packets);
    }
  }

  /** The flush finds the decoder's queue closed, or the demuxer learns that no report will come. */
  predicate GivesUp(s: State, m: Move) {
    (m == SendFlush && s.closed) || m == Fail
  }

  lemma EndsStep(s: State, t: State, m: Move)
    requires Inv(s) && Step(s, t, m)
    ensures t.demux == Stopped <==> s.demux == Stopped || GivesUp(s, m)
    ensures t.closed <==> s.closed || m == Leave
  {
  }

  /** Over every run: the demuxer has stopped exactly if it had to give up, and the queue is closed exactly if the decoder has left. */
  lemma {:induction false} StoppedIff(states: seq<State>, moves: seq<Move>, k: nat)
    requires Run(states, moves) && k <= |moves|
    ensures states[k].demux == Stopped <==> exists j :: 0 <= j < k && GivesUp(states[j], moves[j])
    ensures states[k].closed <==> exists j :: 0 <= j < k && moves[j] == Leave
  {
    if k > 0 {
      hide Inv, Step, GivesUp;
      StoppedIff(states, moves, k - 1);
      RunInv(states, moves, k - 1);
      assert Step(states[k - 1], states[k], moves[k - 1]);
      EndsStep(states[k - 1], states[k], moves[k - 1]);
    }
  }

  /** A decoder that has not left can take a step towards it. */
  lemma CanLeave(s: State)
    requires s.dec != Left
    ensures exists t :: Step(s, t, Leave) && ((t.dec == Leaving && t.closed) || (t.dec == Left && t.recvFails))
  {
    var t := if s.dec == Leaving then s.(dec := Left, recvFails := true) else s.(dec := Leaving, closed := true);
    assert Step(s, t, Leave);
  }

  // ---------------------------------------------------------------- waiting ends

  /** Bounds how many more steps the decoder can take on its own. */
  function DecoderFuel(s: State): nat {
    2 * |s.packets| + match s.dec case Entering => 4 case Reading => 3 case Leaving => 1 case Left => 0
  }

  lemma DecoderAdvances(s: State, t: State, m: Move)
    requires DecoderMove(m) && Step(s, t, m)
    ensures DecoderFuel(t) < DecoderFuel(s)
  {
  }

  /**
   A waiting demuxer is never stuck: either it can go on itself, or the decoder has a step
   to take without leaving; and the decoder cannot take such steps for ever.
   */
  lemma WaitingEnds(states: seq<State>, moves: seq<Move>, k: nat)
    requires Run(states, moves) && k < |states| && states[k].demux == Waiting
    ensures var s := states[k];
      || (exists t :: Step(s, t, Take) || Step(s, t, Fail))
      || (exists t, m :: DecoderMove(m) && Step(s, t, m) && DecoderFuel(t) < DecoderFuel(s) && (s.dec == Leaving || !t.closed))
  {
    RunInv(states, moves, k);
    var s := states[k];
    var stamp := Timestamp(0, TimeBase(1, 1));
    if s.reports != [] {
      assert Step(s, s.(demux := Sending, reports := s.reports[1..], got := s.got + [s.reports[0]]), Take);
    } else {
      match s.dec
      case Entering =>
        var t := if s.owed.Yes? then s.(dec := Reading, owed := No, reports := s.reports + [Report(s.owed.round, stamp)])
                 else s.(dec := Reading);
        assert DecoderMove(Enter(stamp)) && Step(s, t, Enter(stamp));
        DecoderAdvances(s, t, Enter(stamp));
      case Reading =>
        ReadingHasFlush(states, moves, k);
        var p := s.packets[0];
        var r := s.(dec := Entering, packets := s.packets[1..]);
        var t := if p.Flush? then r.(owed := Yes(p.round)) else r;
        assert DecoderMove(Read) && Step(s, t, Read);
        DecoderAdvances(s, t, Read);
      case Leaving =>
        var t := s.(dec := Left, recvFails := true);
        assert DecoderMove(Leave) && Step(s, t, Leave);
        DecoderAdvances(s, t, Leave);
      case Left =>
        assert Step(s, s.(demux := Stopped), Fail);
    }
  }

  /** A decoder that reads owes nothing, so the token is the flush in its queue. */
  lemma {:induction false} ReadingOwesNothing(states: seq<State>, moves: seq<Move>, k: nat)
    requires Run(states, moves) && k < |states| && states[k].dec == Reading
    ensures states[k].owed == No
  {
    if k > 0 {
      var s, t := states[k - 1], states[k];
      assert Step(s, t, moves[k - 1]);
      if s.dec == Reading {
        ReadingOwesNothing(states, moves, k - 1);
      }
    }
  }

  lemma ReadingHasFlush(states: seq<State>, moves: seq<Move>, k: nat)
    requires Run(states, moves) && k < |states|
    requires states[k].dec == Reading && states[k].demux == Waiting && states[k].reports == []
    ensures states[k].packets != []
  {
    RunInv(states, moves, k);
    ReadingOwesNothing(states, moves, k);
  }

  // ---------------------------------------------------------------- the maximum over all decoders

  /** `m` is the latest of the valid timestamps, the first such; without a valid one it is not valid. */
  ghost predicate IsLatest(stamps: seq<Timestamp>, m: Timestamp) {
    && (m.ts == NOPTS <==> forall k :: 0 <= k < |stamps| ==> stamps[k].ts == NOPTS)
    && (m.ts != NOPTS ==>
          exists k :: 0 <= k < |stamps| && stamps[k] == m
            && (forall l :: 0 <= l < |stamps| && stamps[l].ts != NOPTS ==> Seconds(stamps[l]) <= Seconds(m))
            && (forall l :: 0 <= l < k && stamps[l].ts != NOPTS ==> Seconds(stamps[l]) < Seconds(m)))
  }

  /** One destination of the flush: not a decoder still open, or one that reports nothing, or one that reports. */
  datatype Target = Skipped | Silent | Reports(stamp: Timestamp) | Fails

  function StampsOf(targets: seq<Target>): seq<Timestamp> {
    if targets == [] then []
    else
      var t := targets[|targets| - 1];
      StampsOf(targets[..|targets| - 1]) + if t.Reports? then [t.stamp] else []
  }

  lemma StampsAppend(targets: seq<Target>, i: nat)
    requires i < |targets|
    ensures var before := StampsOf(targets[..i]);
      StampsOf(targets[..i + 1]) == if targets[i].Reports? then before + [targets[i].stamp] else before
  {
    assert targets[..i + 1][..i] == targets[..i];
  }

  lemma LatestAppend(stamps: seq<Timestamp>, m: Timestamp, x: Timestamp)
    requires IsLatest(stamps, m)
    ensures IsLatest(stamps + [x],
      if m.ts == NOPTS || (x.ts != NOPTS && CompareTs(m, x) < 0) then x else m)
  {
    CompareExact(m, x);
    var all := stamps + [x];
    assert all[|stamps|] == x;
    if m.ts == NOPTS || (x.ts != NOPTS && CompareTs(m, x) < 0) {
      assert forall l :: 0 <= l < |stamps| && all[l].ts != NOPTS ==> m.ts != NOPTS && Seconds(all[l]) <= Seconds(m);
    } else {
      var k :| 0 <= k < |stamps| && stamps[k] == m
        && (forall l :: 0 <= l < |stamps| && stamps[l].ts != NOPTS ==> Seconds(stamps[l]) <= Seconds(m))
        && (forall l :: 0 <= l < k && stamps[l].ts != NOPTS ==> Seconds(stamps[l]) < Seconds(m));
      assert all[k] == m;
    }
  }

  /** Flushes every destination in turn and returns the latest end timestamp reported. */
  method DemuxFlush(targets: seq<Target>) returns (ok: bool, maxEnd: Timestamp)
    ensures ok <==> Fails !in targets
    ensures ok ==> IsLatest(StampsOf(targets), maxEnd)
  {
    maxEnd := Timestamp(NOPTS, TimeBase(1, 1));
    assert IsLatest(StampsOf(targets[..0]), maxEnd);
    hide IsLatest, StampsOf;
    for i := 0 to |targets|
      invariant forall k :: 0 <= k < i ==> targets[k] != Fails
      invariant IsLatest(StampsOf(targets[..i]), maxEnd)
    {
      StampsAppend(targets, i);
      match targets[i] {
        case Skipped =>
        case Silent =>
        case Fails => return false, maxEnd;
        case Reports(ts) =>
          LatestAppend(StampsOf(targets[..i]), maxEnd, ts);
          if maxEnd.ts == NOPTS || (ts.ts != NOPTS && CompareTs(maxEnd, ts) < 0) {
            maxEnd := ts;
          }
      }
    }
    assert targets[..|targets|] == targets;
    ok := true;
  }
}
