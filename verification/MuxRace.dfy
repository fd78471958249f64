/**
 Starting a muxer while senders are already sending.  A sender that finds the muxer
 not started takes a lock, looks again, and appends to its FIFO or falls through to a
 direct send; the starter flushes the FIFOs and sets the flag under the same lock.
 One sender per stream; the muxer may close streams at any time.
 */
module MuxRace {

  /** What a sender hands over: a packet, or the mark that no more will come. */
  datatype Item = Data(id: int) | Finish

  /** Where a sender stands; each transition below is atomic in the program. */
  datatype SenderPc = Idle | WantLock(item: Item) | HasLock(item: Item) | Direct(item: Item) | Done

  datatype StarterPc = Waiting | Flushing | Flagged | Finished

  datatype Owner = Nobody | Sender(i: nat) | Starter

  /**
   `sent` records the items the sender was told are taken; `queue` is what the muxer's
   thread queue received for this stream, in order; `refused` says that the FIFO refused the mark,
   of which the sender takes no notice.
   */
  datatype Stream = Stream(pc: SenderPc, fifo: seq<Item>, queue: seq<Item>, sent: seq<Item>,
                           initEof: bool, sendFinished: bool, closed: bool, refused: bool)

  datatype State = State(started: bool, lock: Owner, starter: StarterPc, streams: seq<Stream>)

  const NEW_STREAM := Stream(Idle, [], [], [], false, false, false, false)

  predicate Init(s: State) {
    && !s.started && s.lock == Nobody && s.starter == Waiting
    && forall i :: 0 <= i < |s.streams| ==> s.streams[i] == NEW_STREAM
  }

  /** After handing over `x` the sender sends something else, or nothing if `x` was the mark. */
  function After(x: Item): SenderPc {
    if x.Finish? then Done else Idle
  }

  function Put(s: State, i: nat, a: Stream): State
    requires i < |s.streams|
  {
    s.(streams := s.streams[i := a])
  }

  // ---------------------------------------------------------------- the sender of stream i

  /** Reads the flag without the lock. */
  predicate SenderBegins(s: State, t: State, i: nat, x: Item) {
    && i < |s.streams| && s.streams[i].pc == Idle
    && t == Put(s, i, s.streams[i].(pc := if s.started then Direct(x) else WantLock(x)))
  }

  predicate SenderLocks(s: State, t: State, i: nat) {
    && i < |s.streams| && s.streams[i].pc.WantLock? && s.lock == Nobody
    && t == Put(s, i, s.streams[i].(pc := HasLock(s.streams[i].pc.item))).(lock := Sender(i))
  }

  /** Still not started: the item goes to the FIFO, unless that refuses it. */
  predicate SenderQueues(s: State, t: State, i: nat, room: bool) {
    && i < |s.streams| && s.streams[i].pc.HasLock? && !s.started
    && var a := s.streams[i];
       var x := a.pc.item;
       t == Put(s, i, if room then a.(pc := After(x), fifo := a.fifo + [x], sent := a.sent + [x])
                      else a.(pc := After(x), refused := x.Finish?)).(lock := Nobody)
  }

  /** Started in the meantime: the normal send path follows. */
  predicate SenderFallsThrough(s: State, t: State, i: nat) {
    && i < |s.streams| && s.streams[i].pc.HasLock? && s.started
    && t == Put(s, i, s.streams[i].(pc := Direct(s.streams[i].pc.item))).(lock := Nobody)
  }

  function Sent(a: Stream): Stream
    requires a.pc.Direct?
  {
    var x := a.pc.item;
    if x.Finish? then
      a.(pc := Done, sendFinished := true, sent := a.sent + [x], queue := if a.closed then a.queue else a.queue + [x])
    else if a.initEof || a.sendFinished then a.(pc := Idle)
    else if a.closed then a.(pc := Idle, sendFinished := true)
    else a.(pc := Idle, queue := a.queue + [x], sent := a.sent + [x])
  }

  predicate SenderSends(s: State, t: State, i: nat) {
    i < |s.streams| && s.streams[i].pc.Direct? && t == Put(s, i, Sent(s.streams[i]))
  }

  // ---------------------------------------------------------------- the starter and the muxer

  predicate StarterLocks(s: State, t: State) {
    && s.starter == Waiting && s.lock == Nobody
    && t == s.(starter := Flushing, lock := Starter)
  }

  function Flushed(a: Stream): Stream
    requires a.fifo != []
  {
    var x, b := a.fifo[0], a.(fifo := a.fifo[1..]);
    if x.Finish? then b.(sendFinished := true, queue := if a.closed then a.queue else a.queue + [x])
    else if a.initEof then b
    else if a.closed then b.(initEof := true, sendFinished := true)
    else b.(queue := a.queue + [x])
  }

  /** Moves the head of one FIFO to the queue; which one is left open here. */
  predicate StarterFlushes(s: State, t: State, i: nat) {
    && s.starter == Flushing && i < |s.streams| && s.streams[i].fifo != []
    && t == Put(s, i, Flushed(s.streams[i]))
  }

  predicate StarterFlags(s: State, t: State) {
    && s.starter == Flushing && (forall i :: 0 <= i < |s.streams| ==> s.streams[i].fifo == [])
    && t == s.(starter := Flagged, started := true)
  }

  predicate StarterUnlocks(s: State, t: State) {
    && s.starter == Flagged
    && t == s.(starter := Finished, lock := Nobody)
  }

  /** The muxer takes no more from stream i. */
  predicate MuxerCloses(s: State, t: State, i: nat) {
    i < |s.streams| && t == Put(s, i, s.streams[i].(closed := true))
  }

  datatype Move =
    | Begin(i: nat, x: Item) | Lock(i: nat) | Queue(i: nat, room: bool) | FallThrough(i: nat) | Send(i: nat)
    | StartLock | FlushOne(i: nat) | Flag | Unlock | Close(i: nat)

  predicate Step(s: State, t: State, m: Move) {
    match m
    case Begin(i, x) => SenderBegins(s, t, i, x)
    case Lock(i) => SenderLocks(s, t, i)
    case Queue(i, room) => SenderQueues(s, t, i, room)
    case FallThrough(i) => SenderFallsThrough(s, t, i)
    case Send(i) => SenderSends(s, t, i)
    case StartLock => StarterLocks(s, t)
    case FlushOne(i) => StarterFlushes(s, t, i)
    case Flag => StarterFlags(s, t)
    case Unlock => StarterUnlocks(s, t)
    case Close(i) => MuxerCloses(s, t, i)
  }

  /** A run: any interleaving of moves. */
  predicate Run(states: seq<State>, moves: seq<Move>) {
    && |states| == |moves| + 1 && Init(states[0])
    && forall k :: 0 <= k < |moves| ==> Step(states[k], states[k + 1], moves[k])
  }

  // ---------------------------------------------------------------- the invariant

  ghost predicate EndsAtMark(items: seq<Item>) {
    forall k :: 0 <= k < |items| - 1 ==> items[k].Data?
  }

  ghost predicate StreamOk(a: Stream, i: nat, started: bool, lock: Owner) {
    // while the stream is open, nothing is lost, doubled or reordered
    && (!a.closed ==> a.queue + a.fifo == a.sent)
    && a.queue <= a.sent
    && (started ==> a.fifo == [])
    // only a sender that saw the flag set sends directly
    && (a.pc.Direct? ==> started)
    && (a.pc.HasLock? <==> lock == Sender(i))
    // the mark comes last
    && EndsAtMark(a.sent)
    && (Finish in a.sent ==> a.pc == Done)
    // a sender that is done has sent its mark, unless it was refused
    && (a.pc == Done ==> (Finish in a.sent <==> !a.refused))
    && (a.refused ==> a.pc == Done)
    && (a.sendFinished && !a.closed ==> a.fifo == [] && Finish in a.sent)
    && (a.initEof ==> a.closed && a.sendFinished)
  }

  ghost predicate Inv(s: State) {
    && (s.starter == Flushing || s.starter == Flagged <==> s.lock == Starter)
    && (s.started <==> s.starter == Flagged || s.starter == Finished)
    && (s.lock.Sender? ==> s.lock.i < |s.streams|)
    && forall i: nat :: i < |s.streams| ==> StreamOk(s.streams[i], i, s.started, s.lock)
  }

  lemma InitInv(s: State)
    requires Init(s)
    ensures Inv(s)
  {
  }

  lemma SenderInv(s: State, t: State, i: nat, room: bool)
    requires Inv(s)
    requires SenderLocks(s, t, i) || SenderQueues(s, t, i, room) || SenderFallsThrough(s, t, i)
    ensures Inv(t)
  {
    assert StreamOk(s.streams[i], i, s.started, s.lock);
    assert StreamOk(t.streams[i], i, t.started, t.lock);
    forall k: nat | k < |t.streams| ensures StreamOk(t.streams[k], k, t.started, t.lock) {
      assert StreamOk(s.streams[k], k, s.started, s.lock);
    }
  }

  lemma BeginInv(s: State, t: State, i: nat, x: Item)
    requires Inv(s) && SenderBegins(s, t, i, x)
    ensures Inv(t)
  {
    assert StreamOk(s.streams[i], i, s.started, s.lock);
    forall k: nat | k < |t.streams| ensures StreamOk(t.streams[k], k, t.started, t.lock) {
      assert StreamOk(s.streams[k], k, s.started, s.lock);
    }
  }

  lemma SendInv(s: State, t: State, i: nat)
    requires Inv(s) && SenderSends(s, t, i)
    ensures Inv(t)
  {
    assert StreamOk(s.streams[i], i, s.started, s.lock);
    assert StreamOk(t.streams[i], i, t.started, t.lock);
    forall k: nat | k < |t.streams| ensures StreamOk(t.streams[k], k, t.started, t.lock) {
      assert StreamOk(s.streams[k], k, s.started, s.lock);
    }
  }

  lemma FlushInv(s: State, t: State, i: nat)
    requires Inv(s) && StarterFlushes(s, t, i)
    ensures Inv(t)
  {
    var a := s.streams[i];
    assert StreamOk(a, i, s.started, s.lock);
    assert a.fifo == [a.fifo[0]] + a.fifo[1..];
    if !a.closed {
      assert a.queue + a.fifo == (a.queue + [a.fifo[0]]) + a.fifo[1..];
      MarkIsLast(a.sent, a.queue, a.fifo);
    }
    assert StreamOk(t.streams[i], i, t.started, t.lock);
    forall k: nat | k < |t.streams| ensures StreamOk(t.streams[k], k, t.started, t.lock) {
      assert StreamOk(s.streams[k], k, s.started, s.lock);
    }
  }

  lemma StarterInv(s: State, t: State)
    requires Inv(s)
    requires StarterLocks(s, t) || StarterFlags(s, t) || StarterUnlocks(s, t)
    ensures Inv(t)
  {
    forall k: nat | k < |t.streams| ensures StreamOk(t.streams[k], k, t.started, t.lock) {
      assert StreamOk(s.streams[k], k, s.started, s.lock);
    }
  }

  lemma CloseInv(s: State, t: State, i: nat)
    requires Inv(s) && MuxerCloses(s, t, i)
    ensures Inv(t)
  {
    forall k: nat | k < |t.streams| ensures StreamOk(t.streams[k], k, t.started, t.lock) {
      assert StreamOk(s.streams[k], k, s.started, s.lock);
    }
  }

  /** Every move of every party keeps the invariant. */
  lemma StepInv(s: State, t: State, m: Move)
    requires Inv(s) && Step(s, t, m)
    ensures Inv(t)
  {
    hide Inv;
    match m
    case Begin(i, x) => BeginInv(s, t, i, x);
    case Lock(i) => SenderInv(s, t, i, true);
    case Queue(i, room) => SenderInv(s, t, i, room);
    case FallThrough(i) => SenderInv(s, t, i, true);
    case Send(i) => SendInv(s, t, i);
    case FlushOne(i) => FlushInv(s, t, i);
    case Close(i) => CloseInv(s, t, i);
    case _ => StarterInv(s, t);
  }

  lemma MarkIsLast(sent: seq<Item>, queue: seq<Item>, fifo: seq<Item>)
    requires EndsAtMark(sent) && sent == queue + fifo && fifo != []
    ensures fifo[0].Finish? ==> |fifo| == 1
  {
    assert sent[|queue|] == fifo[0];
  }

  lemma {:induction false} RunInv(states: seq<State>, moves: seq<Move>, k: nat)
    requires Run(states, moves) && k < |states|
    ensures Inv(states[k])
  {
    if k == 0 {
      InitInv(states[0]);
    } else {
      RunInv(states, moves, k - 1);
      StepInv(states[k - 1], states[k], moves[k - 1]);
    }
  }

  /**
   At every point of every run, for each stream the muxer has not closed: the queue
   holds what was sent, in order and once each, the part still in the FIFO coming after;
   once the muxer counts as started, nothing is left in the FIFO.  For a closed stream
   the queue holds an initial part of what was sent.
   */
  lemma ExactlyOnceInOrder(states: seq<State>, moves: seq<Move>, k: nat, i: nat)
    requires Run(states, moves) && k < |states| && i < |states[k].streams|
    ensures var a := states[k].streams[i];
      && (!a.closed ==> a.queue + a.fifo == a.sent)
      && (!a.closed && states[k].started ==> a.queue == a.sent)
      && a.queue <= a.sent
  {
    RunInv(states, moves, k);
    assert StreamOk(states[k].streams[i], i, states[k].started, states[k].lock);
  }

  // ---------------------------------------------------------------- what was handed over

  /** The items the sender of stream `i` was given, whatever became of them. */
  function Handed(moves: seq<Move>, i: nat): seq<Item> {
    if moves == [] then []
    else
      var rest, m := Handed(moves[..|moves| - 1], i), moves[|moves| - 1];
      if m.Begin? && m.i == i then rest + [m.x] else rest
  }

  /** Those of them that the FIFO did not refuse. */
  function Kept(moves: seq<Move>, i: nat): seq<Item> {
    if moves == [] then []
    else
      var rest, m := Kept(moves[..|moves| - 1], i), moves[|moves| - 1];
      if m.Begin? && m.i == i then rest + [m.x]
      else if m.Queue? && m.i == i && !m.room && rest != [] then rest[..|rest| - 1]
      else rest
  }

  predicate NothingRefused(moves: seq<Move>, i: nat) {
    forall k :: 0 <= k < |moves| ==> moves[k] != Queue(i, false)
  }

  lemma {:induction false} KeptIsHanded(moves: seq<Move>, i: nat)
    requires NothingRefused(moves, i)
    ensures Kept(moves, i) == Handed(moves, i)
  {
    if moves != [] {
      var m := |moves| - 1;
      assert moves[m] != Queue(i, false);
      assert forall k :: 0 <= k < m ==> moves[..m][k] == moves[k];
      KeptIsHanded(moves[..m], i);
    }
  }

  /** The item a sender is working on. */
  function InHand(a: Stream): seq<Item> {
    if a.pc.WantLock? || a.pc.HasLock? || a.pc.Direct? then [a.pc.item] else []
  }

  /** Everything kept of an open stream is in the queue, then in the FIFO, then in the sender's hand. */
  predicate Conserved(a: Stream, kept: seq<Item>) {
    kept == a.queue + a.fifo + InHand(a)
  }

  lemma ConservedElsewhere(s: State, t: State, m: Move, i: nat, kept: seq<Item>)
    requires Step(s, t, m) && i < |s.streams| && Conserved(s.streams[i], kept)
    requires m.StartLock? || m.Flag? || m.Unlock? || m.i != i || m.Close?
    ensures i < |t.streams| && Conserved(t.streams[i], kept)
  {
  }

  lemma ConservedFlush(s: State, t: State, i: nat, kept: seq<Item>)
    requires Inv(s) && StarterFlushes(s, t, i) && Conserved(s.streams[i], kept) && !s.streams[i].closed
    ensures i < |t.streams| && Conserved(t.streams[i], kept)
  {
    var a := s.streams[i];
    assert StreamOk(a, i, s.started, s.lock);
    assert a.fifo == [a.fifo[0]] + a.fifo[1..];
    assert a.queue + a.fifo == (a.queue + [a.fifo[0]]) + a.fifo[1..];
  }

  lemma ConservedSend(s: State, t: State, i: nat, kept: seq<Item>)
    requires Inv(s) && SenderSends(s, t, i) && Conserved(s.streams[i], kept) && !s.streams[i].closed
    ensures i < |t.streams| && Conserved(t.streams[i], kept)
  {
    var a := s.streams[i];
    assert StreamOk(a, i, s.started, s.lock);
  }

  lemma ConservedQueue(s: State, t: State, i: nat, room: bool, kept: seq<Item>)
    requires SenderQueues(s, t, i, room) && Conserved(s.streams[i], kept)
    ensures kept != [] && i < |t.streams|
    ensures Conserved(t.streams[i], if room then kept else kept[..|kept| - 1])
  {
    var a := s.streams[i];
    assert kept == (a.queue + a.fifo) + [a.pc.item];
  }

  lemma ConservedStep(s: State, t: State, m: Move, i: nat, kept: seq<Item>)
    requires Inv(s) && Step(s, t, m) && i < |s.streams| && !s.streams[i].closed && Conserved(s.streams[i], kept)
    ensures i < |t.streams|
    ensures Conserved(t.streams[i],
      if m.Begin? && m.i == i then kept + [m.x]
      else if m.Queue? && m.i == i && !m.room && kept != [] then kept[..|kept| - 1] else kept)
  {
    if m.StartLock? || m.Flag? || m.Unlock? || m.i != i || m.Close? {
      ConservedElsewhere(s, t, m, i, kept);
    } else {
      hide Inv;
      match m
      case Begin(_, x) =>
      case Lock(_) =>
      case Queue(_, room) => ConservedQueue(s, t, i, room, kept);
      case FallThrough(_) =>
      case Send(_) => ConservedSend(s, t, i, kept);
      case FlushOne(_) => ConservedFlush(s, t, i, kept);
    }
  }

  lemma {:induction false} RunConserves(states: seq<State>, moves: seq<Move>, k: nat, i: nat)
    requires Run(states, moves) && k <= |moves| && i < |states[0].streams|
    ensures i < |states[k].streams| && (!states[k].streams[i].closed ==> Conserved(states[k].streams[i], Kept(moves[..k], i)))
  {
    hide Inv, Step, Conserved;
    if k == 0 {
      StartsEmpty(states, moves, i);
    } else {
      RunConserves(states, moves, k - 1, i);
      RunInv(states, moves, k - 1);
      assert Step(states[k - 1], states[k], moves[k - 1]);
      StepGrows(states[k - 1], states[k], moves[k - 1], i);
      assert moves[..k][..k - 1] == moves[..k - 1];
      if !states[k].streams[i].closed {
        ConservedStep(states[k - 1], states[k], moves[k - 1], i, Kept(moves[..k - 1], i));
      }
    }
  }

  lemma StartsEmpty(states: seq<State>, moves: seq<Move>, i: nat)
    requires Run(states, moves) && i < |states[0].streams|
    ensures Conserved(states[0].streams[i], Kept(moves[..0], i))
  {
  }

  /**
   At every point of every run, for each stream the muxer has not closed: the queue and then the FIFO
   hold exactly what the sender was given and the FIFO did not refuse, in order, except for an item
   still in the sender's hand.
   */
  lemma NothingLost(states: seq<State>, moves: seq<Move>, k: nat, i: nat)
    requires Run(states, moves) && k <= |moves| && i < |states[0].streams|
    ensures i < |states[k].streams|
    ensures var a := states[k].streams[i];
      && (!a.closed ==> a.queue + a.fifo + InHand(a) == Kept(moves[..k], i))
      && (!a.closed && NothingRefused(moves[..k], i) && (a.pc == Idle || a.pc == Done) ==>
            a.queue + a.fifo == Handed(moves[..k], i))
  {
    RunConserves(states, moves, k, i);
    if NothingRefused(moves[..k], i) {
      KeptIsHanded(moves[..k], i);
    }
  }

  /**
   A sender that is done has got its end mark through exactly if its FIFO did not refuse it; for an
   open stream of a started muxer the mark is then in the queue.
   */
  lemma MarkArrivesIff(states: seq<State>, moves: seq<Move>, k: nat, i: nat)
    requires Run(states, moves) && k < |states| && i < |states[k].streams| && states[k].streams[i].pc == Done
    ensures var a := states[k].streams[i];
      && (Finish in a.sent <==> !a.refused)
      && (!a.closed && states[k].started ==> (Finish in a.queue <==> !a.refused))
  {
    RunInv(states, moves, k);
    assert StreamOk(states[k].streams[i], i, states[k].started, states[k].lock);
  }

  /** No move takes anything back. */
  lemma StepGrows(s: State, t: State, m: Move, i: nat)
    requires Step(s, t, m) && i < |s.streams|
    ensures i < |t.streams|
    ensures var a, b := s.streams[i], t.streams[i];
      a.queue <= b.queue && a.sent <= b.sent && (a.closed ==> b.closed)
  {
  }

  /** Whatever the queue has received stays there: later items only come after it. */
  lemma {:induction false} QueueOnlyGrows(states: seq<State>, moves: seq<Move>, k: nat, l: nat, i: nat)
    requires Run(states, moves) && k <= l < |states| && i < |states[k].streams|
    ensures i < |states[l].streams| && states[k].streams[i].queue <= states[l].streams[i].queue
    decreases l - k
  {
    hide Step;
    if k < l {
      StepGrows(states[k], states[k + 1], moves[k], i);
      QueueOnlyGrows(states, moves, k + 1, l, i);
    }
  }

  /** An item sent directly comes after everything the stream ever had in its FIFO. */
  lemma FifoBeforeDirect(states: seq<State>, moves: seq<Move>, k: nat, l: nat, i: nat)
    requires Run(states, moves) && k <= l < |moves| && i < |states[k].streams|
    requires moves[l] == Send(i) && i < |states[l].streams| && !states[l].streams[i].closed
    ensures states[k].streams[i].queue + states[k].streams[i].fifo <= states[l].streams[i].queue
  {
    OpenBefore(states, moves, k, l, i);
    SentOnlyGrows(states, moves, k, l, i);
    ExactlyOnceInOrder(states, moves, k, i);
    ExactlyOnceInOrder(states, moves, l, i);
    RunInv(states, moves, l);
    assert Step(states[l], states[l + 1], moves[l]);
    assert StreamOk(states[l].streams[i], i, states[l].started, states[l].lock);
  }

  lemma {:induction false} SentOnlyGrows(states: seq<State>, moves: seq<Move>, k: nat, l: nat, i: nat)
    requires Run(states, moves) && k <= l < |states| && i < |states[k].streams|
    ensures i < |states[l].streams| && states[k].streams[i].sent <= states[l].streams[i].sent
    decreases l - k
  {
    hide Step;
    if k < l {
      StepGrows(states[k], states[k + 1], moves[k], i);
      SentOnlyGrows(states, moves, k + 1, l, i);
    }
  }

  lemma {:induction false} OpenBefore(states: seq<State>, moves: seq<Move>, k: nat, l: nat, i: nat)
    requires Run(states, moves) && k <= l < |states| && i < |states[k].streams|
    ensures i < |states[l].streams| && (states[k].streams[i].closed ==> states[l].streams[i].closed)
    decreases l - k
  {
    hide Step;
    if k < l {
      StepGrows(states[k], states[k + 1], moves[k], i);
      OpenBefore(states, moves, k + 1, l, i);
    }
  }

  // ---------------------------------------------------------------- what the flags mean

  /** An end mark goes towards the queue of stream `i`, or anything does after the muxer has closed it. */
  predicate Concludes(s: State, m: Move, i: nat) {
    && i < |s.streams|
    && var a := s.streams[i];
       || (m == Send(i) && a.pc.Direct? && (a.closed || a.pc.item.Finish?))
       || (m == FlushOne(i) && a.fifo != [] && (a.closed || a.fifo[0].Finish?))
  }

  /** The flush meets a packet of a stream that the muxer has closed. */
  predicate FlushLearns(s: State, m: Move, i: nat) {
    i < |s.streams| && m == FlushOne(i) && s.streams[i].closed && s.streams[i].fifo != [] && s.streams[i].fifo[0].Data?
  }

  lemma FlagsStep(s: State, t: State, m: Move, i: nat)
    requires Inv(s) && Step(s, t, m) && i < |s.streams|
    ensures i < |t.streams|
    ensures var a, b := s.streams[i], t.streams[i];
      && (b.sendFinished <==> a.sendFinished || Concludes(s, m, i))
      && (b.initEof <==> a.initEof || FlushLearns(s, m, i))
      && (b.closed <==> a.closed || m == Close(i))
      && (a.closed ==> b.queue == a.queue)
      && (b.queue != a.queue ==> s.started || s.starter == Flushing)
      && (s.starter != Waiting ==> t.starter != Waiting)
  {
    assert StreamOk(s.streams[i], i, s.started, s.lock);
  }

  /**
   Over every run: a stream is closed exactly if the muxer has closed it; its sending side counts as
   finished exactly if an end mark went to the queue or anything did after it was closed; its sender is
   turned away at once exactly if the flush met one of its packets after it was closed. Before the
   muxer's start nothing is in its queue.
   */
  lemma {:induction false} FlagsMean(states: seq<State>, moves: seq<Move>, k: nat, i: nat)
    requires Run(states, moves) && k <= |moves| && i < |states[0].streams|
    ensures i < |states[k].streams|
    ensures var a := states[k].streams[i];
      && (a.closed <==> exists j :: 0 <= j < k && moves[j] == Close(i))
      && (a.sendFinished <==> exists j :: 0 <= j < k && Concludes(states[j], moves[j], i))
      && (a.initEof <==> exists j :: 0 <= j < k && FlushLearns(states[j], moves[j], i))
      && (states[k].starter == Waiting ==> a.queue == [])
  {
    hide Inv, Step, Concludes, FlushLearns;
    if k > 0 {
      FlagsMean(states, moves, k - 1, i);
      RunInv(states, moves, k - 1);
      assert Step(states[k - 1], states[k], moves[k - 1]);
      FlagsStep(states[k - 1], states[k], moves[k - 1], i);
      NotStartedWaiting(states, moves, k - 1);
    }
  }

  lemma NotStartedWaiting(states: seq<State>, moves: seq<Move>, k: nat)
    requires Run(states, moves) && k <= |moves|
    ensures states[k].starter == Waiting ==> !states[k].started
  {
    RunInv(states, moves, k);
  }

  /** Once the muxer has closed a stream its queue stays as it is. */
  lemma {:induction false} ClosedIsFinal(states: seq<State>, moves: seq<Move>, k: nat, l: nat, i: nat)
    requires Run(states, moves) && k <= l < |states| && i < |states[k].streams| && states[k].streams[i].closed
    ensures i < |states[l].streams| && states[l].streams[i].closed
    ensures states[l].streams[i].queue == states[k].streams[i].queue
    decreases l - k
  {
    hide Inv, Step;
    if k < l {
      RunInv(states, moves, k);
      assert Step(states[k], states[k + 1], moves[k]);
      FlagsStep(states[k], states[k + 1], moves[k], i);
      ClosedIsFinal(states, moves, k + 1, l, i);
    }
  }

  // ---------------------------------------------------------------- where a sender stands

  /** The last thing the sender was handed is in its hand, or it is done exactly if that was the mark. */
  ghost predicate Stands(a: Stream, handed: seq<Item>) {
    && EndsAtMark(handed)
    && (InHand(a) != [] ==> handed != [] && InHand(a) == [handed[|handed| - 1]])
    && (InHand(a) == [] ==> (a.pc == Done <==> handed != [] && handed[|handed| - 1].Finish?))
  }

  lemma StandsStep(s: State, t: State, m: Move, i: nat, handed: seq<Item>)
    requires Step(s, t, m) && i < |s.streams| && Stands(s.streams[i], handed)
    ensures i < |t.streams| && Stands(t.streams[i], if m.Begin? && m.i == i then handed + [m.x] else handed)
    ensures m == Send(i) || (m.Queue? && m.i == i) ==> InHand(t.streams[i]) == []
  {
  }

  /** Over every run a sender is where its last item has brought it, and the mark is the last it is handed. */
  lemma {:induction false} WhereItStands(states: seq<State>, moves: seq<Move>, k: nat, i: nat)
    requires Run(states, moves) && k <= |moves| && i < |states[0].streams|
    ensures i < |states[k].streams| && Stands(states[k].streams[i], Handed(moves[..k], i))
    ensures k > 0 && (moves[k - 1] == Send(i) || (moves[k - 1].Queue? && moves[k - 1].i == i)) ==>
      InHand(states[k].streams[i]) == []
  {
    hide Step, Stands, InHand;
    if k == 0 {
      StandsAtStart(states, moves, i);
    } else {
      WhereItStands(states, moves, k - 1, i);
      assert Step(states[k - 1], states[k], moves[k - 1]);
      assert moves[..k][..k - 1] == moves[..k - 1];
      StandsStep(states[k - 1], states[k], moves[k - 1], i, Handed(moves[..k - 1], i));
    }
  }

  lemma StandsAtStart(states: seq<State>, moves: seq<Move>, i: nat)
    requires Run(states, moves) && i < |states[0].streams|
    ensures Stands(states[0].streams[i], Handed(moves[..0], i))
  {
  }

  // ---------------------------------------------------------------- the start ends

  /** Moves that finish what has begun: everything but new items and the muxer closing a stream. */
  predicate Finishing(m: Move) {
    !m.Begin? && !m.Close?
  }

  predicate AllAtRest(s: State) {
    s.starter == Finished && forall i :: 0 <= i < |s.streams| ==> InHand(s.streams[i]) == []
  }

  function StreamWork(a: Stream): nat {
    |a.fifo| + match a.pc
      case WantLock(_) => 4
      case HasLock(_) => 3
      case Direct(_) => 2
      case _ => 0
  }

  function StreamsWork(streams: seq<Stream>): nat {
    if streams == [] then 0 else StreamsWork(streams[..|streams| - 1]) + StreamWork(streams[|streams| - 1])
  }

  function StarterWork(pc: StarterPc): nat {
    match pc
    case Waiting => 3
    case Flushing => 2
    case Flagged => 1
    case Finished => 0
  }

  function Work(s: State): nat {
    StreamsWork(s.streams) + StarterWork(s.starter)
  }

  lemma {:induction false} WorkOfOne(streams: seq<Stream>, i: nat, a: Stream)
    requires i < |streams|
    ensures StreamsWork(streams[i := a]) == StreamsWork(streams) - StreamWork(streams[i]) + StreamWork(a)
  {
    var m := |streams| - 1;
    if i < m {
      WorkOfOne(streams[..m], i, a);
      assert streams[i := a][..m] == streams[..m][i := a];
    } else {
      assert streams[i := a][..m] == streams[..m];
    }
  }

  /** Each finishing move leaves less to do. */
  lemma WorkShrinks(s: State, t: State, m: Move)
    requires Step(s, t, m) && Finishing(m)
    ensures Work(t) < Work(s)
  {
    hide StreamsWork;
    if !m.StartLock? && !m.Flag? && !m.Unlock? {
      StreamShrinks(s, t, m);
      hide Step, StreamWork;
      WorkOfOne(s.streams, m.i, t.streams[m.i]);
    }
  }

  lemma StreamShrinks(s: State, t: State, m: Move)
    requires Step(s, t, m) && Finishing(m) && !m.StartLock? && !m.Flag? && !m.Unlock?
    ensures m.i < |s.streams| == |t.streams| && t.starter == s.starter
    ensures t.streams == s.streams[m.i := t.streams[m.i]]
    ensures StreamWork(t.streams[m.i]) < StreamWork(s.streams[m.i])
  {
  }

  ghost predicate Enabled(s: State, m: Move) {
    exists t :: Step(s, t, m)
  }

  lemma HolderGoesOn(s: State, i: nat)
    requires i < |s.streams| && s.streams[i].pc.HasLock?
    ensures exists m :: Finishing(m) && Enabled(s, m)
  {
    var a := s.streams[i];
    if s.started {
      assert Step(s, Put(s, i, a.(pc := Direct(a.pc.item))).(lock := Nobody), FallThrough(i));
      assert Enabled(s, FallThrough(i));
    } else {
      var x := a.pc.item;
      assert Step(s, Put(s, i, a.(pc := After(x), refused := x.Finish?)).(lock := Nobody), Queue(i, false));
      assert Enabled(s, Queue(i, false));
    }
  }

  lemma DirectGoesOn(s: State, i: nat)
    requires i < |s.streams| && s.streams[i].pc.Direct?
    ensures exists m :: Finishing(m) && Enabled(s, m)
  {
    assert Step(s, Put(s, i, Sent(s.streams[i])), Send(i));
    assert Enabled(s, Send(i));
  }

  lemma StarterGoesOn(s: State)
    requires s.starter == Flushing || s.starter == Flagged || (s.starter == Waiting && s.lock == Nobody)
    ensures exists m :: Finishing(m) && Enabled(s, m)
  {
    if s.starter == Waiting {
      assert Step(s, s.(starter := Flushing, lock := Starter), StartLock);
      assert Enabled(s, StartLock);
    } else if s.starter == Flagged {
      assert Step(s, s.(starter := Finished, lock := Nobody), Unlock);
      assert Enabled(s, Unlock);
    } else if i: nat :| i < |s.streams| && s.streams[i].fifo != [] {
      FlushGoesOn(s, i);
    } else {
      assert Step(s, s.(starter := Flagged, started := true), Flag);
      assert Enabled(s, Flag);
    }
  }

  lemma FlushGoesOn(s: State, i: nat)
    requires s.starter == Flushing && i < |s.streams| && s.streams[i].fifo != []
    ensures exists m :: Finishing(m) && Enabled(s, m)
  {
    assert Step(s, Put(s, i, Flushed(s.streams[i])), FlushOne(i));
    assert Enabled(s, FlushOne(i));
  }

  /**
   In every reachable state, unless the muxer has started and no sender holds anything, somebody can
   go on; and as each such move leaves less to do, the start and every send end.
   */
  lemma NeverStuck(states: seq<State>, moves: seq<Move>, k: nat)
    requires Run(states, moves) && k <= |moves| && !AllAtRest(states[k])
    ensures exists m :: Finishing(m) && Enabled(states[k], m)
    ensures forall m, t :: Finishing(m) && Step(states[k], t, m) ==> Work(t) < Work(states[k])
  {
    var s := states[k];
    RunInv(states, moves, k);
    SomebodyGoesOn(s);
    hide Step;
    forall m, t | Finishing(m) && Step(s, t, m) ensures Work(t) < Work(s) {
      WorkShrinks(s, t, m);
    }
  }

  lemma SomebodyGoesOn(s: State)
    requires Inv(s) && !AllAtRest(s)
    ensures exists m :: Finishing(m) && Enabled(s, m)
  {
    hide Finishing, Enabled;
    match s.lock
    case Sender(i) =>
      assert StreamOk(s.streams[i], i, s.started, s.lock);
      HolderGoesOn(s, i);
    case Starter => StarterGoesOn(s);
    case Nobody =>
      if s.starter == Waiting {
        StarterGoesOn(s);
      } else {
        var i: nat :| i < |s.streams| && InHand(s.streams[i]) != [];
        assert StreamOk(s.streams[i], i, s.started, s.lock);
        if s.streams[i].pc.Direct? {
          DirectGoesOn(s, i);
        } else {
          LockFree(s, i);
        }
      }
  }

  lemma LockFree(s: State, i: nat)
    requires i < |s.streams| && s.streams[i].pc.WantLock? && s.lock == Nobody
    ensures exists m :: Finishing(m) && Enabled(s, m)
  {
    var a := s.streams[i];
    assert Step(s, Put(s, i, a.(pc := HasLock(a.pc.item))).(lock := Sender(i)), Lock(i));
    assert Enabled(s, Lock(i));
  }
}
