/**
 Packets that arrive before a muxer can be started wait in one FIFO per stream; when
 the muxer starts they are merged into its queue.
 */
module PreMux {
  import opened Timestamps

  datatype Packet = Packet(dts: int, tb: TimeBase, size: nat, id: int)

  /** What a sender puts in: a packet, or the mark that no more will come. */
  datatype Item = Data(pkt: Packet) | Finish

  datatype SendResult = Sent | Closed | Invalid

  function Stamp(p: Packet): Timestamp {
    Timestamp(p.dts, p.tb)
  }

  // ---------------------------------------------------------------- which stream goes next

  /** The head of the FIFO is a mark, or a packet without a timestamp. */
  predicate Untimed(fifo: seq<Item>) {
    |fifo| > 0 && (fifo[0].Finish? || fifo[0].pkt.dts == NOPTS)
  }

  predicate Timed(fifo: seq<Item>) {
    |fifo| > 0 && fifo[0].Data? && fifo[0].pkt.dts != NOPTS
  }

  ghost predicate NotLater(a: seq<Item>, b: seq<Item>)
    requires Timed(a) && Timed(b)
  {
    Seconds(Stamp(a[0].pkt)) <= Seconds(Stamp(b[0].pkt))
  }

  /**
   The stream to be flushed next: the first one with an untimed head if there is any,
   otherwise the first among those with the earliest head; -1 when all are empty.
   */
  ghost predicate IsNext(fifos: seq<seq<Item>>, m: int) {
    && -1 <= m < |fifos|
    && (m == -1 ==> forall i :: 0 <= i < |fifos| ==> fifos[i] == [])
    && (m >= 0 ==> fifos[m] != [])
    && (forall i :: 0 <= i < |fifos| && Untimed(fifos[i]) ==> m >= 0 && Untimed(fifos[m]) && m <= i)
    && (m >= 0 && Timed(fifos[m]) ==>
          forall i :: 0 <= i < |fifos| && Timed(fifos[i]) ==>
            NotLater(fifos[m], fifos[i]) && (i < m ==> !NotLater(fifos[i], fifos[m])))
  }

  ghost function TotalItems(fifos: seq<seq<Item>>): nat {
    if fifos == [] then 0 else |fifos[0]| + TotalItems(fifos[1..])
  }

  lemma {:induction false} TotalDrops(fifos: seq<seq<Item>>, i: nat)
    requires i < |fifos| && fifos[i] != []
    ensures TotalItems(fifos[i := fifos[i][1..]]) < TotalItems(fifos)
  {
    var next := fifos[i := fifos[i][1..]];
    if i == 0 {
      assert next[1..] == fifos[1..];
    } else {
      assert next[1..] == fifos[1..][i - 1 := fifos[1..][i - 1][1..]];
      TotalDrops(fifos[1..], i - 1);
    }
  }

  // ---------------------------------------------------------------- sequences tagged with a stream

  /** The entries of one stream, in order. */
  ghost function OfStream<T>(log: seq<(nat, T)>, i: nat): seq<T> {
    if log == [] then []
    else
      var rest := OfStream(log[..|log| - 1], i);
      if log[|log| - 1].0 == i then rest + [log[|log| - 1].1] else rest
  }

  lemma OfStreamAppend<T>(log: seq<(nat, T)>, i: nat, x: T)
    ensures OfStream(log + [(i, x)], i) == OfStream(log, i) + [x]
    ensures forall k: nat :: k != i ==> OfStream(log + [(i, x)], k) == OfStream(log, k)
  {
    assert (log + [(i, x)])[..|log|] == log;
  }

  // ---------------------------------------------------------------- order of the merge

  /** A FIFO of timed packets whose timestamps never go back. */
  ghost predicate Orderly(fifo: seq<Item>) {
    && (forall k :: 0 <= k < |fifo| ==> fifo[k].Data? && fifo[k].pkt.dts != NOPTS)
    && (forall k, l :: 0 <= k < l < |fifo| ==> Seconds(Stamp(fifo[k].pkt)) <= Seconds(Stamp(fifo[l].pkt)))
  }

  ghost predicate AllOrderly(fifos: seq<seq<Item>>) {
    forall i :: 0 <= i < |fifos| ==> Orderly(fifos[i])
  }

  /** `a` may come before `b`: earlier, or at the same time and from a stream not above. */
  ghost predicate Precedes(a: (nat, Item), b: (nat, Item)) {
    && a.1.Data? && b.1.Data?
    && (var s, t := Seconds(Stamp(a.1.pkt)), Seconds(Stamp(b.1.pkt)); s < t || (s == t && a.0 <= b.0))
  }

  ghost predicate InOrder(log: seq<(nat, Item)>) {
    forall k, l :: 0 <= k < l < |log| ==> Precedes(log[k], log[l])
  }

  /** Everything already flushed may come before everything still waiting. */
  ghost predicate Ahead(log: seq<(nat, Item)>, fifos: seq<seq<Item>>) {
    forall k, i, l :: 0 <= k < |log| && 0 <= i < |fifos| && 0 <= l < |fifos[i]| ==> Precedes(log[k], (i, fifos[i][l]))
  }

  /** Taking the next item keeps the merge in order. */
  lemma MergeStep(log: seq<(nat, Item)>, fifos: seq<seq<Item>>, m: nat)
    requires m < |fifos| && IsNext(fifos, m) && AllOrderly(fifos)
    requires InOrder(log) && Ahead(log, fifos)
    ensures AllOrderly(fifos[m := fifos[m][1..]])
    ensures InOrder(log + [(m, fifos[m][0])]) && Ahead(log + [(m, fifos[m][0])], fifos[m := fifos[m][1..]])
  {
    var head := (m, fifos[m][0]);
    var rest := fifos[m := fifos[m][1..]];
    var next := log + [head];
    forall i, l | 0 <= i < |rest| && 0 <= l < |rest[i]| ensures Precedes(head, (i, rest[i][l])) {
      if i == m {
        assert rest[i][l] == fifos[m][l + 1];
      } else {
        assert Timed(fifos[i]) && NotLater(fifos[m], fifos[i]);
      }
    }
    forall k, i, l | 0 <= k < |next| && 0 <= i < |rest| && 0 <= l < |rest[i]| ensures Precedes(next[k], (i, rest[i][l])) {
      if k < |log| {
        assert rest[i][l] == if i == m then fifos[i][l + 1] else fifos[i][l];
      }
    }
    forall k, l | 0 <= k < l < |next| ensures Precedes(next[k], next[l]) {
      if l == |log| {
        assert Precedes(log[k], (m, fifos[m][0]));
      }
    }
  }

  /** Taking an item that is then dropped keeps it too. */
  lemma MergeSkip(log: seq<(nat, Item)>, fifos: seq<seq<Item>>, m: nat)
    requires m < |fifos| && fifos[m] != [] && AllOrderly(fifos) && Ahead(log, fifos)
    ensures AllOrderly(fifos[m := fifos[m][1..]]) && Ahead(log, fifos[m := fifos[m][1..]])
  {
    var rest := fifos[m := fifos[m][1..]];
    forall k, i, l | 0 <= k < |log| && 0 <= i < |rest| && 0 <= l < |rest[i]| ensures Precedes(log[k], (i, rest[i][l])) {
      assert rest[i][l] == if i == m then fifos[i][l + 1] else fifos[i][l];
    }
  }

  /** The packets among some items. */
  ghost function Packets(items: seq<Item>): seq<Item> {
    if items == [] then []
    else
      var rest := Packets(items[..|items| - 1]);
      if items[|items| - 1].Data? then rest + [items[|items| - 1]] else rest
  }

  lemma PacketsAppend(items: seq<Item>, x: Item)
    ensures Packets(items + [x]) == Packets(items) + if x.Data? then [x] else []
  {
    assert (items + [x])[..|items|] == items;
  }

  // ---------------------------------------------------------------- what a flush has done so far

  /** The muxer's side of one stream during a flush. */
  datatype Outlet = Outlet(initEof: bool, sendFinished: bool, receiveFinished: bool)

  /**
   For one stream: what was waiting, what has been taken, what of that the muxer's queue
   accepted.  Nothing is lost or reordered as long as the muxer keeps the stream open.
   */
  ghost predicate StreamOk(waiting: seq<Item>, taken: seq<Item>, left: seq<Item>, accepted: seq<Item>, o: Outlet) {
    && waiting == taken + left
    && accepted <= Packets(taken)
    && (!o.initEof ==> accepted == Packets(taken))
    && (o.initEof ==> o.receiveFinished)
    && (Finish in taken ==> o.sendFinished)
    && (EndsAtMark(waiting) && o.sendFinished && !o.initEof ==> left == [])
  }

  lemma StreamBegins(waiting: seq<Item>)
    ensures StreamOk(waiting, [], waiting, [], Outlet(false, false, false))
    ensures StreamOk(waiting, [], waiting, [], Outlet(false, false, true))
  {
  }

  lemma StreamMayClose(waiting: seq<Item>, taken: seq<Item>, left: seq<Item>, accepted: seq<Item>, o: Outlet)
    requires StreamOk(waiting, taken, left, accepted, o)
    ensures StreamOk(waiting, taken, left, accepted, o.(receiveFinished := true))
  {
  }

  /** One item taken from the stream and handled. */
  lemma StreamTakes(waiting: seq<Item>, taken: seq<Item>, left: seq<Item>, accepted: seq<Item>, o: Outlet,
                    accepted': seq<Item>, o': Outlet)
    requires StreamOk(waiting, taken, left, accepted, o) && left != []
    requires
      var x := left[0];
      || (x.Finish? && accepted' == accepted && o' == o.(sendFinished := true))
      || (x.Data? && o.initEof && accepted' == accepted && o' == o)
      || (x.Data? && !o.initEof && accepted' == accepted + [x] && o' == o && !o.sendFinished)
      || (x.Data? && !o.initEof && o.receiveFinished && accepted' == accepted && o' == o.(initEof := true, sendFinished := true))
    ensures StreamOk(waiting, taken + [left[0]], left[1..], accepted', o')
  {
    PacketsAppend(taken, left[0]);
    if left[0].Finish? && EndsAtMark(waiting) {
      assert waiting[|taken|] == left[0];
    }
  }

  /** Everything a flush touches. */
  datatype Flush = Flush(fifos: seq<seq<Item>>, flushed: seq<(nat, Item)>, added: seq<(nat, Item)>,
                         initEof: seq<bool>, sendFinished: seq<bool>, receiveFinished: seq<bool>)
  {
    ghost predicate Shape(n: nat) {
      |fifos| == |initEof| == |sendFinished| == |receiveFinished| == n
    }

    ghost function Out(i: nat): Outlet
      requires i < |initEof| && i < |sendFinished| && i < |receiveFinished|
    {
      Outlet(initEof[i], sendFinished[i], receiveFinished[i])
    }
  }

  /** Stream `m` gives up its head, while the muxer may have closed further streams. */
  ghost predicate Takes(s: Flush, m: nat, t: Flush, n: nat) {
    && s.Shape(n) && t.Shape(n) && m < n && s.fifos[m] != []
    && t.fifos == s.fifos[m := s.fifos[m][1..]]
    && t.flushed == s.flushed + [(m, s.fifos[m][0])]
    && (forall i :: 0 <= i < n && s.receiveFinished[i] ==> t.receiveFinished[i])
    && (if s.fifos[m][0].Finish? then
          t.added == s.added && t.initEof == s.initEof && t.sendFinished == s.sendFinished[m := true]
        else if s.initEof[m] then
          t.added == s.added && t.initEof == s.initEof && t.sendFinished == s.sendFinished
        else if t.receiveFinished[m] then
          t.added == s.added && t.initEof == s.initEof[m := true] && t.sendFinished == s.sendFinished[m := true]
        else
          !s.sendFinished[m] && t.added == s.added + [(m, s.fifos[m][0])]
          && t.initEof == s.initEof && t.sendFinished == s.sendFinished)
  }

  ghost predicate FlushOk(waiting: seq<seq<Item>>, s: Flush, n: nat) {
    && |waiting| == n && s.Shape(n)
    && forall i :: 0 <= i < n ==>
         StreamOk(waiting[i], OfStream(s.flushed, i), s.fifos[i], OfStream(s.added, i), s.Out(i))
  }

  lemma TakesHere(waiting: seq<seq<Item>>, s: Flush, m: nat, t: Flush, n: nat)
    requires FlushOk(waiting, s, n) && Takes(s, m, t, n)
    ensures StreamOk(waiting[m], OfStream(t.flushed, m), t.fifos[m], OfStream(t.added, m), t.Out(m))
  {
    var x := s.fifos[m][0];
    OfStreamAppend(s.flushed, m, x);
    OfStreamAppend(s.added, m, x);
    var o, taken, left, accepted := s.Out(m), OfStream(s.flushed, m), s.fifos[m], OfStream(s.added, m);
    assert StreamOk(waiting[m], taken, left, accepted, o);
    var o1 := o.(receiveFinished := t.receiveFinished[m]);
    assert StreamOk(waiting[m], taken, left, accepted, o1) by {
      StreamMayClose(waiting[m], taken, left, accepted, o);
    }
    hide StreamOk, OfStream;
    StreamTakes(waiting[m], taken, left, accepted, o1, OfStream(t.added, m), t.Out(m));
  }

  lemma TakesElsewhere(waiting: seq<seq<Item>>, s: Flush, m: nat, t: Flush, n: nat, i: nat)
    requires FlushOk(waiting, s, n) && Takes(s, m, t, n) && i < n && i != m
    ensures StreamOk(waiting[i], OfStream(t.flushed, i), t.fifos[i], OfStream(t.added, i), t.Out(i))
  {
    var x := s.fifos[m][0];
    OfStreamAppend(s.flushed, m, x);
    OfStreamAppend(s.added, m, x);
    var o, taken, left, accepted := s.Out(i), OfStream(s.flushed, i), s.fifos[i], OfStream(s.added, i);
    assert StreamOk(waiting[i], taken, left, accepted, o);
    hide OfStream;
    StreamMayClose(waiting[i], taken, left, accepted, o);
  }

  lemma FlushTakes(waiting: seq<seq<Item>>, s: Flush, m: nat, t: Flush, n: nat)
    requires FlushOk(waiting, s, n) && Takes(s, m, t, n)
    ensures FlushOk(waiting, t, n)
  {
    hide StreamOk, OfStream;
    TakesHere(waiting, s, m, t, n);
    forall i: nat | i < n && i != m
      ensures StreamOk(waiting[i], OfStream(t.flushed, i), t.fifos[i], OfStream(t.added, i), t.Out(i))
    {
      TakesElsewhere(waiting, s, m, t, n, i);
    }
  }

  /** The order across streams that a flush has kept so far. */
  ghost predicate MergedSoFar(s: Flush) {
    AllOrderly(s.fifos) && InOrder(s.added) && Ahead(s.added, s.fifos)
  }

  lemma MergeTakes(s: Flush, m: nat, t: Flush, n: nat)
    requires Takes(s, m, t, n) && IsNext(s.fifos, m) && MergedSoFar(s)
    ensures MergedSoFar(t)
  {
    MergeStep(s.added, s.fifos, m);
    MergeSkip(s.added, s.fifos, m);
  }

  // ---------------------------------------------------------------- the muxer

  /** A FIFO that ends at its mark, if it has one. */
  ghost predicate EndsAtMark(fifo: seq<Item>) {
    forall k :: 0 <= k < |fifo| - 1 ==> fifo[k].Data?
  }

  class Mux {
    const nbStreams: nat
    var fifos: seq<seq<Item>>
    // capacity of each FIFO, bytes queued so far, and the two limits of each stream
    var capacity: seq<nat>
    var dataSize: seq<nat>
    var maxPackets: seq<nat>
    var dataThreshold: seq<nat>
    // an end was reported while flushing
    var initEof: seq<bool>
    var started: bool

    // the muxer's thread queue: what it has accepted, and who has finished
    var queue: seq<(nat, Item)>
    var sendFinished: seq<bool>
    var receiveFinished: seq<bool>

    // everything taken out of the FIFOs, in order
    ghost var flushed: seq<(nat, Item)>

    ghost predicate Valid()
      reads this
    {
      && |fifos| == |capacity| == |dataSize| == |maxPackets| == |dataThreshold| == |initEof| == nbStreams
      && |sendFinished| == |receiveFinished| == nbStreams
      && forall i :: 0 <= i < nbStreams ==> |fifos[i]| <= capacity[i] && capacity[i] > 0
    }

    constructor (n: nat, packets: seq<nat>, threshold: seq<nat>)
      requires |packets| == |threshold| == n
      ensures Valid() && nbStreams == n && maxPackets == packets && dataThreshold == threshold
      ensures fifos == seq(n, _ => []) && queue == [] && flushed == [] && !started
      ensures forall i :: 0 <= i < n ==> !initEof[i] && !sendFinished[i] && !receiveFinished[i]
    {
      nbStreams := n;
      fifos := seq(n, _ => []);
      capacity := seq(n, _ => 8);
      dataSize := seq(n, _ => 0);
      maxPackets, dataThreshold := packets, threshold;
      initEof, sendFinished, receiveFinished := seq(n, _ => false), seq(n, _ => false), seq(n, _ => false);
      started, queue, flushed := false, [], [];
    }

    /**
     Appends an item to the stream's FIFO.  It is refused exactly when the FIFO is full,
     holds at least the packet limit, and the byte threshold would be passed.  A mark is
     refused like a packet.
     */
    method QueuePacket(i: nat, item: Item) returns (ok: bool)
      requires Valid() && i < nbStreams
      modifies this`fifos, this`capacity, this`dataSize
      ensures Valid()
      ensures !ok <==> |old(fifos[i])| == old(capacity[i]) && maxPackets[i] <= |old(fifos[i])|
                       && old(dataSize[i]) + (if item.Data? then item.pkt.size else 0) > dataThreshold[i]
      ensures fifos == if ok then old(fifos)[i := old(fifos[i]) + [item]] else old(fifos)
      ensures dataSize == if ok then old(dataSize)[i := old(dataSize[i]) + if item.Data? then item.pkt.size else 0]
                          else old(dataSize)
      ensures var n, size := |old(fifos[i])|, if item.Data? then item.pkt.size else 0;
        capacity == if !ok || n < old(capacity[i]) then old(capacity)
                    else if old(dataSize[i]) + size > dataThreshold[i] && maxPackets[i] < 2 * n
                      then old(capacity)[i := maxPackets[i]] else old(capacity)[i := 2 * n]
    {
      var packets := |fifos[i]|;
      if packets == capacity[i] {
        var pktSize := if item.Data? then item.pkt.size else 0;
        var threshReached := dataSize[i] + pktSize > dataThreshold[i];
        var newSize := if threshReached && maxPackets[i] < 2 * packets then maxPackets[i] else 2 * packets;
        if newSize <= packets {
          return false;
        }
        capacity := capacity[i := newSize];
      }
      if item.Data? {
        dataSize := dataSize[i := dataSize[i] + item.pkt.size];
      }
      fifos := fifos[i := fifos[i] + [item]];
      return true;
    }

    /** The muxer thread may close streams at any moment while the flush is running. */
    method ReceiverMayClose()
      requires Valid()
      modifies this`receiveFinished
      ensures Valid()
      ensures forall i :: 0 <= i < nbStreams && old(receiveFinished)[i] ==> receiveFinished[i]
    {
    }

    /** Sends one packet to the muxer's queue. */
    method TqSend(i: nat, pkt: Packet) returns (ret: SendResult)
      requires Valid() && i < nbStreams
      modifies this`queue, this`sendFinished
      ensures Valid()
      ensures ret == if old(sendFinished[i]) then Invalid else if receiveFinished[i] then Closed else Sent
      ensures queue == if ret == Sent then old(queue) + [(i, Data(pkt))] else old(queue)
      ensures sendFinished == if ret == Closed then old(sendFinished)[i := true] else old(sendFinished)
    {
      if sendFinished[i] {
        return Invalid;
      }
      if receiveFinished[i] {
        sendFinished := sendFinished[i := true];
        return Closed;
      }
      queue := queue + [(i, Data(pkt))];
      return Sent;
    }

    /** Finds the stream with the earliest timestamp or an untimed item. */
    method NextStream() returns (minStream: int)
      requires Valid()
      ensures IsNext(fifos, minStream)
    {
      minStream := -1;
      var minTs := Timestamp(NOPTS, TimeBase(1, 1));
      for i := 0 to nbStreams
        invariant -1 <= minStream < i
        invariant forall k :: 0 <= k < i ==> !Untimed(fifos[k])
        invariant minStream == -1 ==> minTs.ts == NOPTS && forall k :: 0 <= k < i ==> fifos[k] == []
        invariant minStream >= 0 ==> Timed(fifos[minStream]) && minTs == Stamp(fifos[minStream][0].pkt) && minTs.ts != NOPTS
        invariant minStream >= 0 ==> forall k :: 0 <= k < i && Timed(fifos[k]) ==>
          NotLater(fifos[minStream], fifos[k]) && (k < minStream ==> !NotLater(fifos[k], fifos[minStream]))
      {
        if fifos[i] == [] {
          continue;
        }
        var item := fifos[i][0];
        if item.Finish? || item.pkt.dts == NOPTS {
          minStream := i;
          break;
        }
        CompareExact(minTs, Stamp(item.pkt));
        if minTs.ts == NOPTS || CompareTs(minTs, Stamp(item.pkt)) > 0 {
          minStream := i;
          minTs := Stamp(item.pkt);
        }
      }
    }

    ghost function State(added: seq<(nat, Item)>): Flush
      reads this
    {
      Flush(fifos, flushed, added, initEof, sendFinished, receiveFinished)
    }

    /** Takes the head of one stream and passes it on. */
    method FlushOne(m: nat, ghost added: seq<(nat, Item)>) returns (ok: bool, ghost added': seq<(nat, Item)>)
      requires Valid() && m < nbStreams && fifos[m] != []
      modifies this`fifos, this`initEof, this`queue, this`sendFinished, this`receiveFinished, this`flushed
      ensures Valid() && added <= added' && queue == old(queue) + added'[|added|..]
      ensures ok ==> Takes(old(State(added)), m, State(added'), nbStreams)
      ensures !ok ==> added' == added && old(fifos[m][0]).Data? && old(sendFinished[m]) && !old(initEof[m])
                      && fifos == old(fifos)[m := old(fifos[m])[1..]] && flushed == old(flushed) + [(m, old(fifos[m][0]))]
    {
      added' := added;
      var item := fifos[m][0];
      fifos := fifos[m := fifos[m][1..]];
      flushed := flushed + [(m, item)];
      ReceiverMayClose();
      if item.Data? {
        var ret := Sent;
        if !initEof[m] {
          ret := TqSend(m, item.pkt);
          if ret == Sent {
            added' := added + [(m, item)];
          }
        }
        if ret == Closed {
          initEof := initEof[m := true];
        } else if ret == Invalid {
          return false, added';
        }
      } else {
        sendFinished := sendFinished[m := true];
      }
      return true, added';
    }

    /**
     Merges the FIFOs into the muxer's queue once its task runs.  `added` is what the
     queue accepted.  On success every FIFO is empty and the muxer counts as started.
     */
    method FlushAll() returns (ok: bool, ghost added: seq<(nat, Item)>)
      requires Valid() && !started && flushed == []
      requires forall i :: 0 <= i < nbStreams ==> !initEof[i] && !sendFinished[i]
      modifies this`fifos, this`initEof, this`started, this`queue, this`sendFinished, this`receiveFinished, this`flushed
      ensures Valid() && queue == old(queue) + added && started == ok
      ensures ok ==> forall i :: 0 <= i < nbStreams ==> fifos[i] == []
      // each stream: in order, and complete unless the muxer closed it
      ensures ok ==> forall i :: 0 <= i < nbStreams ==>
        && OfStream(flushed, i) == old(fifos[i])
        && OfStream(added, i) <= Packets(old(fifos[i]))
        && (!receiveFinished[i] ==> OfStream(added, i) == Packets(old(fifos[i])))
        && (Finish in old(fifos[i]) ==> sendFinished[i])
      // across streams: by time, then by stream
      ensures AllOrderly(old(fifos)) ==> InOrder(added)
      ensures (forall i :: 0 <= i < nbStreams ==> EndsAtMark(old(fifos[i]))) ==> ok
    {
      hide Takes, StreamOk, IsNext, FlushOk, MergedSoFar, AllOrderly, InOrder;
      added := [];
      ghost var waiting := fifos;
      FlushBegins(State([]), nbStreams);
      while true
        invariant Valid() && !started && queue == old(queue) + added
        invariant FlushOk(waiting, State(added), nbStreams)
        invariant AllOrderly(waiting) ==> MergedSoFar(State(added))
        decreases TotalItems(fifos)
      {
        var m := NextStream();
        NextMeaning(fifos, m);
        if m < 0 {
          break;
        }
        ghost var s := State(added);
        TotalDrops(fifos, m);
        var sent, added' := FlushOne(m, added);
        if !sent {
          NotInvalid(waiting, s, m, nbStreams);
          if AllOrderly(waiting) {
            MergedInOrder(s);
          }
          return false, added';
        }
        FlushTakes(waiting, s, m, State(added'), nbStreams);
        if AllOrderly(waiting) {
          MergeTakes(s, m, State(added'), nbStreams);
        }
        TakesFifos(s, m, State(added'), nbStreams);
        added := added';
      }
      started := true;
      if AllOrderly(waiting) {
        MergedInOrder(State(added));
      }
      forall i | 0 <= i < nbStreams
        ensures OfStream(flushed, i) == waiting[i]
                && OfStream(added, i) <= Packets(waiting[i])
                && (!receiveFinished[i] ==> OfStream(added, i) == Packets(waiting[i]))
                && (Finish in waiting[i] ==> sendFinished[i])
      {
        StreamDone(waiting, State(added), nbStreams, i);
      }
      return true, added;
    }
  }

  lemma FlushBegins(s: Flush, n: nat)
    requires s.Shape(n) && s.flushed == s.added == []
    requires forall i :: 0 <= i < n ==> !s.initEof[i] && !s.sendFinished[i]
    ensures FlushOk(s.fifos, s, n) && (AllOrderly(s.fifos) ==> MergedSoFar(s))
  {
    forall i | 0 <= i < n ensures StreamOk(s.fifos[i], [], s.fifos[i], [], s.Out(i)) {
      StreamBegins(s.fifos[i]);
    }
  }

  lemma NextMeaning(fifos: seq<seq<Item>>, m: int)
    requires IsNext(fifos, m)
    ensures m >= 0 ==> m < |fifos| && fifos[m] != []
    ensures m < 0 ==> forall i :: 0 <= i < |fifos| ==> fifos[i] == []
  {
  }

  lemma TakesFifos(s: Flush, m: nat, t: Flush, n: nat)
    requires Takes(s, m, t, n)
    ensures m < |s.fifos| && s.fifos[m] != [] && t.fifos == s.fifos[m := s.fifos[m][1..]]
  {
  }

  /** The queue never refuses an item of a stream that ends at its mark. */
  lemma NotInvalid(waiting: seq<seq<Item>>, s: Flush, m: nat, n: nat)
    requires FlushOk(waiting, s, n) && m < n && s.fifos[m] != [] && s.sendFinished[m] && !s.initEof[m]
    ensures !EndsAtMark(waiting[m])
  {
    assert StreamOk(waiting[m], OfStream(s.flushed, m), s.fifos[m], OfStream(s.added, m), s.Out(m));
  }

  lemma StreamDone(waiting: seq<seq<Item>>, s: Flush, n: nat, i: nat)
    requires FlushOk(waiting, s, n) && i < n && s.fifos[i] == []
    ensures OfStream(s.flushed, i) == waiting[i] && OfStream(s.added, i) <= Packets(waiting[i])
    ensures !s.receiveFinished[i] ==> OfStream(s.added, i) == Packets(waiting[i])
    ensures Finish in waiting[i] ==> s.sendFinished[i]
  {
    assert StreamOk(waiting[i], OfStream(s.flushed, i), s.fifos[i], OfStream(s.added, i), s.Out(i));
  }

  lemma MergedInOrder(s: Flush)
    requires MergedSoFar(s)
    ensures InOrder(s.added)
  {
  }
}
