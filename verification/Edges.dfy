/**
 How a task passes items and the end of its output to the tasks after it.  Each edge
 has a flag that says the end has been passed on.  A demuxer has a list of destinations
 per stream, a decoder one per output, an encoder a single list.
 */
module Edges {
  import opened Tables

  datatype Kind = ToMux | ToDec | ToFilter | ToEnc

  /** What travels along an edge. */
  datatype Event = Item(id: int) | End

  /** What a task hands over: an item, or nothing more. */
  datatype Payload = Some(id: int) | Null

  /** What the receiving side answers, and what the sending functions return. */
  datatype Reply = Ok | Eof | Error(code: int)

  /** This payload amounts to the end for a destination of this kind. */
  predicate EndsHere(kind: Kind, payload: Payload, streamcopyEof: bool) {
    payload.Null? || (streamcopyEof && kind == ToMux)
  }

  /** The flag and the history of one edge. */
  datatype Edge = Edge(finished: bool, log: seq<Event>)

  /** The flag is set exactly when the end has been passed on, and the end comes last. */
  ghost predicate EdgeOk(e: Edge) {
    && (e.finished ==> e.log != [] && e.log[|e.log| - 1].End?)
    && (forall k :: 0 <= k < |e.log| && e.log[k].End? ==> e.finished && k == |e.log| - 1)
  }

  /** `f` is a later state of `e`: history only grows, and not at all after the end. */
  ghost predicate Later(e: Edge, f: Edge) {
    && e.log <= f.log
    && (e.finished ==> f == e)
    && (f.finished && !e.finished ==> |f.log| > |e.log|)
  }

  ghost predicate SameShape<S, T>(a: seq<seq<S>>, b: seq<seq<T>>) {
    |a| == |b| && forall s :: 0 <= s < |a| ==> |a[s]| == |b[s]|
  }

  ghost predicate AllOk(edges: seq<seq<Edge>>) {
    forall s, i :: 0 <= s < |edges| && 0 <= i < |edges[s]| ==> EdgeOk(edges[s][i])
  }

  ghost predicate AllLater(a: seq<seq<Edge>>, b: seq<seq<Edge>>) {
    SameShape(a, b) && forall s, i :: 0 <= s < |a| && 0 <= i < |a[s]| ==> Later(a[s][i], b[s][i])
  }

  /** Runs compose: whatever holds between consecutive states holds over the whole run. */
  lemma LaterTrans(a: seq<seq<Edge>>, b: seq<seq<Edge>>, c: seq<seq<Edge>>)
    requires AllLater(a, b) && AllLater(b, c)
    ensures AllLater(a, c)
  {
    forall s, i | 0 <= s < |a| && 0 <= i < |a[s]| ensures Later(a[s][i], c[s][i]) {
      assert Later(a[s][i], b[s][i]) && Later(b[s][i], c[s][i]);
    }
  }

  // ---------------------------------------------------------------- runs

  /** What one attempt to send does to an edge. */
  function Pass(e: Edge, kind: Kind, payload: Payload, streamcopyEof: bool, reply: Reply): Edge {
    if e.finished then e
    else if EndsHere(kind, payload, streamcopyEof) || reply == Eof then Edge(true, e.log + [End])
    else if reply == Ok then Edge(false, e.log + [Item(payload.id)])
    else e
  }

  /** One attempt, on one destination. */
  datatype Move = Move(s: nat, i: nat, payload: Payload, streamcopyEof: bool, reply: Reply)

  predicate Step(kinds: seq<seq<Kind>>, a: seq<seq<Edge>>, b: seq<seq<Edge>>, m: Move) {
    && m.s < |a| && m.i < |a[m.s]| && m.s < |kinds| && m.i < |kinds[m.s]|
    && b == Set(a, m.s, m.i, Pass(a[m.s][m.i], kinds[m.s][m.i], m.payload, m.streamcopyEof, m.reply))
  }

  /** Any sequence of attempts, from edges that have carried nothing. */
  ghost predicate Run(kinds: seq<seq<Kind>>, states: seq<seq<seq<Edge>>>, moves: seq<Move>) {
    && |states| == |moves| + 1
    && (forall k :: 0 <= k < |states| ==> SameShape(kinds, states[k]))
    && (forall s, i :: 0 <= s < |kinds| && 0 <= i < |kinds[s]| ==> states[0][s][i] == Edge(false, []))
    && (forall k :: 0 <= k < |moves| ==> Step(kinds, states[k], states[k + 1], moves[k]))
  }

  lemma RunExtends(kinds: seq<seq<Kind>>, states: seq<seq<seq<Edge>>>, moves: seq<Move>, t: seq<seq<Edge>>, m: Move)
    requires Run(kinds, states, moves) && Step(kinds, states[|moves|], t, m)
    ensures Run(kinds, states + [t], moves + [m])
  {
    var all, ms := states + [t], moves + [m];
    assert SameShape(kinds, t);
    forall k | 0 <= k < |ms| ensures Step(kinds, all[k], all[k + 1], ms[k]) {
      if k < |moves| {
        assert Step(kinds, states[k], states[k + 1], moves[k]);
      }
    }
  }

  /** One step of a run, seen from one edge. */
  lemma EdgeStep(kinds: seq<seq<Kind>>, states: seq<seq<seq<Edge>>>, moves: seq<Move>, s: nat, i: nat, k: nat)
    requires Run(kinds, states, moves) && s < |kinds| && i < |kinds[s]| && k < |moves|
    ensures s < |states[k]| && i < |states[k][s]| && s < |states[k + 1]| && i < |states[k + 1][s]|
    ensures var e, f, m := states[k][s][i], states[k + 1][s][i], moves[k];
      f == if m.s == s && m.i == i then Pass(e, kinds[s][i], m.payload, m.streamcopyEof, m.reply) else e
  {
    hide Pass;
    assert SameShape(kinds, states[k]) && SameShape(kinds, states[k + 1]);
    assert Step(kinds, states[k], states[k + 1], moves[k]);
  }

  /**
   An item goes along an open edge exactly if the receiver takes it and it does not stand for the end
   of a stream that is copied to a muxer; the end goes along exactly if there is no item, or it stands
   for the end, or the receiver takes no more; on any other answer nothing does.
   */
  lemma PassesOn(e: Edge, kind: Kind, payload: Payload, streamcopyEof: bool, reply: Reply)
    requires !e.finished
    ensures var f := Pass(e, kind, payload, streamcopyEof, reply);
      if payload.Null? || (kind == ToMux && streamcopyEof) || reply == Eof then f.finished && f.log == e.log + [End]
      else if reply == Ok then !f.finished && f.log == e.log + [Item(payload.id)]
      else f == e
  {
  }

  /** At every point of every run the flag is set exactly when the end is in the history, as its last entry. */
  lemma {:induction false} FlagMeansEnd(kinds: seq<seq<Kind>>, states: seq<seq<seq<Edge>>>, moves: seq<Move>, s: nat, i: nat, k: nat)
    requires Run(kinds, states, moves) && s < |kinds| && i < |kinds[s]| && k <= |moves|
    ensures s < |states[k]| && i < |states[k][s]| && EdgeOk(states[k][s][i])
    ensures states[k][s][i].finished <==> End in states[k][s][i].log
  {
    assert SameShape(kinds, states[k]);
    if k > 0 {
      FlagMeansEnd(kinds, states, moves, s, i, k - 1);
      EdgeStep(kinds, states, moves, s, i, k - 1);
    }
  }

  /** Once the flag is set, nothing ever changes the edge again. */
  lemma {:induction false} NothingAfterEnd(kinds: seq<seq<Kind>>, states: seq<seq<seq<Edge>>>, moves: seq<Move>,
                                           s: nat, i: nat, k: nat, l: nat)
    requires Run(kinds, states, moves) && s < |kinds| && i < |kinds[s]| && k <= l <= |moves|
    requires s < |states[k]| && i < |states[k][s]| && states[k][s][i].finished
    ensures s < |states[l]| && i < |states[l][s]| && states[l][s][i] == states[k][s][i]
    decreases l - k
  {
    if k < l {
      EdgeStep(kinds, states, moves, s, i, k);
      NothingAfterEnd(kinds, states, moves, s, i, k + 1, l);
    }
  }

  /** The flag of one edge rises in step `k`, which passes the end on. */
  ghost predicate Rises(states: seq<seq<seq<Edge>>>, s: nat, i: nat, k: nat) {
    && k + 1 < |states| && s < |states[k]| && i < |states[k][s]| && s < |states[k + 1]| && i < |states[k + 1][s]|
    && !states[k][s][i].finished && states[k + 1][s][i] == Edge(true, states[k][s][i].log + [End])
  }

  /**
   In every run, an edge whose flag ends up set was set in exactly one step, the one that passed the
   end on; before it there is no end in the history, and after it nothing changes.
   */
  lemma {:induction false} EndsOnce(kinds: seq<seq<Kind>>, states: seq<seq<seq<Edge>>>, moves: seq<Move>,
                                    s: nat, i: nat, n: nat) returns (k: nat)
    requires Run(kinds, states, moves) && s < |kinds| && i < |kinds[s]| && n <= |moves|
    requires s < |states[n]| && i < |states[n][s]| && states[n][s][i].finished
    ensures k < n && Rises(states, s, i, k) && moves[k].s == s && moves[k].i == i
    ensures forall l: nat :: l < |moves| && Rises(states, s, i, l) ==> l == k
    ensures forall l: nat :: l <= k ==> s < |states[l]| && i < |states[l][s]| && End !in states[l][s][i].log
    ensures forall l: nat :: k < l <= |moves| ==>
      s < |states[l]| && i < |states[l][s]| && states[l][s][i] == states[k + 1][s][i]
    decreases n
  {
    hide Run;
    RunStarts(kinds, states, moves, s, i);
    assert n > 0;
    EdgeStep(kinds, states, moves, s, i, n - 1);
    if states[n - 1][s][i].finished {
      k := EndsOnce(kinds, states, moves, s, i, n - 1);
    } else {
      k := n - 1;
      forall l: nat | k < l <= |moves| ensures s < |states[l]| && i < |states[l][s]| && states[l][s][i] == states[k + 1][s][i] {
        NothingAfterEnd(kinds, states, moves, s, i, n, l);
      }
      forall l: nat | l <= k ensures s < |states[l]| && i < |states[l][s]| && End !in states[l][s][i].log {
        FlagMeansEnd(kinds, states, moves, s, i, l);
        if states[l][s][i].finished {
          NothingAfterEnd(kinds, states, moves, s, i, l, k);
        }
      }
      OnceOnly(kinds, states, moves, s, i, k);
    }
  }

  lemma RunStarts(kinds: seq<seq<Kind>>, states: seq<seq<seq<Edge>>>, moves: seq<Move>, s: nat, i: nat)
    requires Run(kinds, states, moves) && s < |kinds| && i < |kinds[s]|
    ensures |states| == |moves| + 1 && s < |states[0]| && i < |states[0][s]| && !states[0][s][i].finished
  {
    assert SameShape(kinds, states[0]);
  }

  lemma OnceOnly(kinds: seq<seq<Kind>>, states: seq<seq<seq<Edge>>>, moves: seq<Move>, s: nat, i: nat, k: nat)
    requires Run(kinds, states, moves) && s < |kinds| && i < |kinds[s]| && k < |moves| && Rises(states, s, i, k)
    ensures forall l: nat :: l < |moves| && Rises(states, s, i, l) ==> l == k
  {
    forall l: nat | l < |moves| && Rises(states, s, i, l) ensures l == k {
      if l < k {
        NothingAfterEnd(kinds, states, moves, s, i, l + 1, k);
      } else if k < l {
        NothingAfterEnd(kinds, states, moves, s, i, k + 1, l);
      }
    }
  }

  class Sender {
    const kinds: seq<seq<Kind>>
    var edges: seq<seq<Edge>>

    // every attempt so far, and the edges before, between and after them
    ghost var states: seq<seq<seq<Edge>>>
    ghost var moves: seq<Move>

    constructor (destinations: seq<seq<Kind>>)
      ensures Valid() && kinds == destinations
      ensures forall s, i :: 0 <= s < |edges| && 0 <= i < |edges[s]| ==> !edges[s][i].finished && edges[s][i].log == []
    {
      kinds := destinations;
      edges := seq(|destinations|, s requires 0 <= s < |destinations| => seq(|destinations[s]|, _ => Edge(false, [])));
      states := [seq(|destinations|, s requires 0 <= s < |destinations| => seq(|destinations[s]|, _ => Edge(false, [])))];
      moves := [];
    }

    /** Whatever has been done with this sender is a run. */
    ghost predicate Valid()
      reads this
    {
      && SameShape(kinds, edges) && AllOk(edges)
      && Run(kinds, states, moves) && states[|moves|] == edges
    }

    /** Records an attempt. */
    ghost method Note(m: Move, before: seq<seq<Edge>>)
      requires Run(kinds, states, moves) && states[|moves|] == before && Step(kinds, before, edges, m)
      modifies this`states, this`moves
      ensures states == old(states) + [edges] && moves == old(moves) + [m]
      ensures Run(kinds, states, moves) && states[|moves|] == edges
    {
      RunExtends(kinds, states, moves, edges, m);
      states, moves := states + [edges], moves + [m];
    }

    /**
     Sends to one destination.  An item for a muxer may double as the end of the stream
     (`streamcopyEof`); when there is no item, or the receiver takes no more, the end is
     passed on and the flag is set.  `reply` is what the receiver answers to an item.
     */
    method SendToDst(s: nat, i: nat, payload: Payload, streamcopyEof: bool, reply: Reply) returns (ret: Reply)
      requires Valid() && s < |edges| && i < |edges[s]|
      modifies this
      ensures Valid() && AllLater(old(edges), edges)
      ensures edges == Set(old(edges), s, i, Pass(old(edges[s][i]), kinds[s][i], payload, streamcopyEof, reply))
      ensures moves == old(moves) + [Move(s, i, payload, streamcopyEof, reply)]
      ensures edges[s][i].finished <==> ret == Eof
      ensures !old(edges[s][i].finished) && payload.Some? && (kinds[s][i] != ToMux || !streamcopyEof) ==> ret == reply
      ensures payload.Null? || (kinds[s][i] == ToMux && streamcopyEof) ==> ret == Eof
      ensures ret == if old(edges[s][i].finished) || EndsHere(kinds[s][i], payload, streamcopyEof) then Eof else reply
      ensures old(edges[s][i].finished) ==> edges == old(edges)
      ensures ret == Ok ==> edges[s][i].log == old(edges[s][i]).log + [Item(payload.id)]
      ensures ret.Error? ==> edges == old(edges) && ret == reply
      ensures ret == Eof && !old(edges[s][i].finished) ==> edges[s][i].log == old(edges[s][i]).log + [End]
    {
      hide Run;
      var e := edges[s][i];
      ghost var before, m := edges, Move(s, i, payload, streamcopyEof, reply);
      if e.finished {
        SetSame(edges, s, i);
        Note(m, before);
        return Eof;
      }
      var pkt := if kinds[s][i] == ToMux && streamcopyEof then Null else payload;
      if pkt != Null {
        ret := reply;
        if ret == Ok {
          edges := Set(edges, s, i, Edge(false, e.log + [Item(payload.id)]));
          Note(m, before);
          return;
        }
        if ret != Eof {
          SetSame(edges, s, i);
          Note(m, before);
          return;
        }
      }
      edges := Set(edges, s, i, Edge(true, e.log + [End]));
      Note(m, before);
      return Eof;
    }

    /** Sends to every destination of one stream: demuxers and decoders. */
    method SendForStream(s: nat, payload: Payload, streamcopyEof: bool, replies: seq<Reply>) returns (ret: Reply)
      requires Valid() && s < |edges| && |replies| == |edges[s]|
      modifies this
      ensures Valid() && AllLater(old(edges), edges)
      ensures forall t :: 0 <= t < |edges| && t != s ==> edges[t] == old(edges)[t]
      // the end is reported exactly when no destination takes more
      ensures ret == Eof <==> forall i :: 0 <= i < |edges[s]| ==> edges[s][i].finished
      ensures payload == Null ==> forall i :: 0 <= i < |edges[s]| ==> edges[s][i].finished
      ensures !ret.Error? ==> forall i :: 0 <= i < |edges[s]| ==>
        (edges[s][i].finished <==>
         old(edges)[s][i].finished || EndsHere(kinds[s][i], payload, streamcopyEof) || replies[i] == Eof)
      // otherwise each open destination got the item, or the end, unless an error cut the round short
      ensures !ret.Error? && payload.Some? ==> forall i :: 0 <= i < |edges[s]| && !old(edges)[s][i].finished ==>
        edges[s][i].log == old(edges)[s][i].log + [if edges[s][i].finished then End else Item(payload.id)]
      ensures ret.Error? ==> exists i :: 0 <= i < |edges[s]| && ret == replies[i] && edges[s][i] == old(edges)[s][i]
    {
      hide Run, Pass;
      var nbDone := 0;
      for i := 0 to |edges[s]|
        invariant Valid() && AllLater(old(edges), edges)
        invariant forall t :: 0 <= t < |edges| && t != s ==> edges[t] == old(edges)[t]
        invariant forall k :: i <= k < |edges[s]| ==> edges[s][k] == old(edges)[s][k]
        invariant nbDone <= i && (nbDone == i <==> forall k :: 0 <= k < i ==> edges[s][k].finished)
        invariant payload == Null ==> nbDone == i
        invariant forall k :: 0 <= k < i ==>
          (edges[s][k].finished <==>
           old(edges)[s][k].finished || EndsHere(kinds[s][k], payload, streamcopyEof) || replies[k] == Eof)
        invariant payload.Some? ==> forall k :: 0 <= k < i && !old(edges)[s][k].finished ==>
          edges[s][k].log == old(edges)[s][k].log + [if edges[s][k].finished then End else Item(payload.id)]
      {
        ghost var before := edges;
        ret := SendToDst(s, i, payload, streamcopyEof, replies[i]);
        LaterTrans(old(edges), before, edges);
        if ret == Eof {
          nbDone := nbDone + 1;
        } else if ret != Ok {
          return;
        }
      }
      return if nbDone == |edges[s]| then Eof else Ok;
    }

    /** An encoder's send: the end of single destinations is noted but never reported. */
    method EncSend(payload: Payload, replies: seq<Reply>) returns (ret: Reply)
      requires Valid() && |edges| == 1 && |replies| == |edges[0]| && payload.Some?
      modifies this
      ensures Valid() && AllLater(old(edges), edges)
      ensures ret != Eof
      ensures ret == Ok ==> forall i :: 0 <= i < |edges[0]| && !old(edges)[0][i].finished ==>
        edges[0][i].log == old(edges)[0][i].log + [if edges[0][i].finished then End else Item(payload.id)]
    {
      ret := SendForStream(0, payload, false, replies);
      if ret == Eof {
        ret := Ok;
      }
    }

    /**
     The task is done: the end goes along every edge that has not carried it yet.  A demuxer, a
     decoder and an encoder all do this, stream by stream and destination by destination.
     */
    method Done()
      requires Valid()
      modifies this
      ensures Valid() && AllLater(old(edges), edges)
      ensures forall s, i :: 0 <= s < |edges| && 0 <= i < |edges[s]| ==> edges[s][i].finished
      ensures forall s, i :: 0 <= s < |edges| && 0 <= i < |edges[s]| ==>
        edges[s][i].log == old(edges)[s][i].log + if old(edges)[s][i].finished then [] else [End]
    {
      hide Run, Pass;
      for s := 0 to |edges|
        invariant Valid() && AllLater(old(edges), edges)
        invariant forall t, k :: 0 <= t < s && 0 <= k < |edges[t]| ==> edges[t][k].finished
        invariant forall t :: s <= t < |edges| ==> edges[t] == old(edges)[t]
        invariant forall t, i :: 0 <= t < s && 0 <= i < |edges[t]| ==>
          edges[t][i].log == old(edges)[t][i].log + if old(edges)[t][i].finished then [] else [End]
      {
        for i := 0 to |edges[s]|
          invariant Valid() && AllLater(old(edges), edges)
          invariant forall t, k :: 0 <= t < s && 0 <= k < |edges[t]| ==> edges[t][k].finished
          invariant forall t :: s < t < |edges| ==> edges[t] == old(edges)[t]
          invariant forall k :: 0 <= k < i ==> edges[s][k].finished
          invariant forall k :: i <= k < |edges[s]| ==> edges[s][k] == old(edges)[s][k]
          invariant forall t, k :: 0 <= t < |edges| && 0 <= k < |edges[t]| && (t < s || (t == s && k < i)) ==>
            edges[t][k].log == old(edges)[t][k].log + if old(edges)[t][k].finished then [] else [End]
        {
          ghost var before := edges;
          var ret := SendToDst(s, i, Null, false, Ok);
          LaterTrans(old(edges), before, edges);
        }
      }
    }
  }
}
