/**
 Building the graph: connecting endpoints one pair at a time, and the checks made
 once when the scheduler starts.
 */
module Setup {
  import opened Topology
  import opened CycleCheck
  import opened SearchOrder
  import Cycles

  /** Records `dst` at the source. */
  function WithDestination(g: Graph, src: Node, dst: Node): Graph
    requires SourceOk(g, src)
  {
    match src.ty
    case Demux =>
      var d := g.demux[src.idx];
      g.(demux := g.demux[src.idx := d[src.stream := d[src.stream] + [dst]]])
    case Dec =>
      var d := g.dec[src.idx];
      g.(dec := g.dec[src.idx := d.(outputs := d.outputs[src.stream := d.outputs[src.stream] + [dst]])])
    case Enc =>
      var e := g.enc[src.idx];
      g.(enc := g.enc[src.idx := e.(dst := e.dst + [dst])])
    case FilterOut =>
      var f := g.filters[src.idx];
      g.(filters := g.filters[src.idx := f.(outputs := f.outputs[src.stream := dst])])
  }

  /** Records `src` at the sink. */
  function WithSource(g: Graph, dst: Node, src: Node): Graph
    requires SinkOk(g, dst)
  {
    match dst.ty
    case Mux => g.(mux := g.mux[dst.idx := g.mux[dst.idx][dst.stream := src]])
    case Dec => g.(dec := g.dec[dst.idx := g.dec[dst.idx].(src := src)])
    case Enc => g.(enc := g.enc[dst.idx := g.enc[dst.idx].(src := src)])
    case FilterIn =>
      var f := g.filters[dst.idx];
      g.(filters := g.filters[dst.idx := f.(inputs := f.inputs[dst.stream := src])])
  }

  predicate SameSink(a: Node, b: Node) {
    a.ty == b.ty && a.idx == b.idx && (a.ty == Mux || a.ty == FilterIn ==> a.stream == b.stream)
  }

  lemma DestinationRecorded(g: Graph, src: Node, dst: Node)
    requires SourceOk(g, src) && dst.ty != NoType
    requires src.ty == FilterOut ==> Destinations(g, src) == []
    ensures var r := WithDestination(g, src, dst);
      && (forall n: Node :: SourceOk(r, n) <==> SourceOk(g, n))
      && (forall n: Node :: SinkOk(r, n) <==> SinkOk(g, n))
      && (forall n: Node :: SourceOk(g, n) ==>
            Destinations(r, n) == if SameSource(n, src) then Destinations(g, n) + [dst] else Destinations(g, n))
      && (forall n: Node :: SinkOk(g, n) ==> SourceOf(r, n) == SourceOf(g, n))
  {
  }

  lemma SourceRecorded(g: Graph, src: Node, dst: Node)
    requires SinkOk(g, dst)
    ensures var r := WithSource(g, dst, src);
      && (forall n: Node :: SourceOk(r, n) <==> SourceOk(g, n))
      && (forall n: Node :: SinkOk(r, n) <==> SinkOk(g, n))
      && (forall n: Node :: SourceOk(g, n) ==> Destinations(r, n) == Destinations(g, n))
      && (forall n: Node :: SinkOk(g, n) ==> SourceOf(r, n) == if SameSink(n, dst) then src else SourceOf(g, n))
  {
  }

  /** Nothing wrong, an error, or no answer. */
  datatype Prepared = Accepted | Rejected | Stuck

  /**
   In the order of the search, an input behind which the way up never ends comes before every
   filtergraph met again on its own path.
   */
  ghost predicate GetsStuck(adj: Cycles.Adjacency) {
    exists r :: StopOf(adj, r, true) && forall q :: StopOf(adj, q, false) ==> !Before(q, r)
  }

  lemma GetsStuckIff(adj: Cycles.Adjacency)
    requires Cycles.InRange(adj)
    ensures SearchAll(adj, 0) == Endless <==> GetsStuck(adj)
  {
    StuckIff(adj);
  }

  class SchedulerSetup {
    var graph: Graph

    /**
     Connects a source to a sink that has none.  Afterwards the source has one more
     destination, the sink has its source, and nothing else has changed.
     */
    method Connect(src: Node, dst: Node)
      requires Linked(graph) && SourceOk(graph, src) && SinkOk(graph, dst) && TypesMatch(src.ty, dst.ty)
      requires SourceOf(graph, dst).ty == NoType
      requires src.ty == FilterOut ==> Destinations(graph, src) == []
      modifies this
      ensures Linked(graph)
      ensures forall n: Node :: SourceOk(graph, n) <==> SourceOk(old(graph), n)
      ensures forall n: Node :: SinkOk(graph, n) <==> SinkOk(old(graph), n)
      ensures forall n: Node :: SourceOk(graph, n) ==>
        Destinations(graph, n) == Destinations(old(graph), n) + if SameSource(n, src) then [dst] else []
      ensures forall n: Node :: SinkOk(graph, n) ==>
        SourceOf(graph, n) == if SameSink(n, dst) then src else SourceOf(old(graph), n)
    {
      ghost var g0 := graph;
      DestinationRecorded(graph, src, dst);
      graph := WithDestination(graph, src, dst);
      SourceRecorded(graph, src, dst);
      graph := WithSource(graph, dst, src);
      hide WithDestination, WithSource, SourceOk, SinkOk, Destinations, SourceOf;
      forall n: Node | SourceOk(graph, n) ensures OutputsOk(graph, n) {
        assert OutputsOk(g0, n);
      }
      forall n: Node | SinkOk(graph, n) ensures InputOk(graph, n) {
        assert InputOk(g0, n);
      }
    }

    /**
     The checks made once before any task starts; `Stuck` stands for a check that never returns. A
     loop of decoders and encoders that is not above a filter input passes unseen.
     */
    method StartPrepare() returns (r: Prepared)
      requires Linked(graph)
      ensures r == Accepted <==> Complete(graph) && Acyclic(graph) && FiltersFed(graph)
      ensures r == Stuck <==> Complete(graph) && GetsStuck(FilterAdjacency(graph))
      ensures Complete(graph) && Acyclic(graph) ==> (r == Stuck <==> !FiltersFed(graph))
      ensures r == Accepted ==> (Ready(graph) <==> Cycles.Acyclic(CodecAdjacency(graph)))
    {
      hide Linked, Acyclic, FiltersFed, ChainsEnd, GetsStuck, Cycles.Acyclic, FilterAdjacency, CodecAdjacency;
      var g := graph;
      for i := 0 to |g.demux|
        invariant forall d, s :: 0 <= d < i && 0 <= s < |g.demux[d]| ==> g.demux[d][s] != []
      {
        for j := 0 to |g.demux[i]|
          invariant forall s :: 0 <= s < j ==> g.demux[i][s] != []
        {
          if g.demux[i][j] == [] {
            Dangling(g, Node(Demux, i, j));
            return Rejected;
          }
        }
      }
      for i := 0 to |g.dec|
        invariant forall d :: 0 <= d < i ==> g.dec[d].src.ty != NoType
        invariant forall d, o :: 0 <= d < i && 0 <= o < |g.dec[d].outputs| ==> g.dec[d].outputs[o] != []
      {
        if g.dec[i].src.ty == NoType {
          Dangling(g, Node(Dec, i, 0));
          return Rejected;
        }
        for j := 0 to |g.dec[i].outputs|
          invariant forall o :: 0 <= o < j ==> g.dec[i].outputs[o] != []
        {
          if g.dec[i].outputs[j] == [] {
            Dangling(g, Node(Dec, i, j));
            return Rejected;
          }
        }
      }
      for i := 0 to |g.enc|
        invariant forall e :: 0 <= e < i ==> g.enc[e].src.ty != NoType && g.enc[e].dst != []
      {
        if g.enc[i].src.ty == NoType || g.enc[i].dst == [] {
          Dangling(g, Node(Enc, i, 0));
          return Rejected;
        }
      }
      for i := 0 to |g.mux|
        invariant forall m, s :: 0 <= m < i && 0 <= s < |g.mux[m]| ==> g.mux[m][s].ty != NoType
      {
        for j := 0 to |g.mux[i]|
          invariant forall s :: 0 <= s < j ==> g.mux[i][s].ty != NoType
        {
          if g.mux[i][j].ty == NoType {
            Dangling(g, Node(Mux, i, j));
            return Rejected;
          }
        }
      }
      for i := 0 to |g.filters|
        invariant forall f, j :: 0 <= f < i && 0 <= j < |g.filters[f].inputs| ==> g.filters[f].inputs[j].ty != NoType
        invariant forall f, j :: 0 <= f < i && 0 <= j < |g.filters[f].outputs| ==> g.filters[f].outputs[j].ty != NoType
      {
        for j := 0 to |g.filters[i].inputs|
          invariant forall k :: 0 <= k < j ==> g.filters[i].inputs[k].ty != NoType
        {
          if g.filters[i].inputs[j].ty == NoType {
            Dangling(g, Node(FilterIn, i, j));
            return Rejected;
          }
        }
        for j := 0 to |g.filters[i].outputs|
          invariant forall k :: 0 <= k < j ==> g.filters[i].outputs[k].ty != NoType
        {
          if g.filters[i].outputs[j].ty == NoType {
            Dangling(g, Node(FilterOut, i, j));
            return Rejected;
          }
        }
      }
      assert Complete(g);
      var found := CheckAcyclic(g);
      GetsStuckIff(FilterAdjacency(g));
      ChainsEndIffNoLoop(g);
      return match found case Clear => Accepted case Loop => Rejected case Endless => Stuck;
    }
  }

  lemma Dangling(g: Graph, n: Node)
    requires (SourceOk(g, n) && Destinations(g, n) == []) || (SinkOk(g, n) && SourceOf(g, n).ty == NoType)
    ensures !Complete(g)
  {
  }

  /**
   The start-up check looks only at filtergraphs, so it does not see a decoder and an
   encoder that feed each other: here is a completely connected graph without any
   filtergraph in which climbing from the muxed stream never ends.
   */
  lemma DecoderLoopUnseen() returns (g: Graph)
    ensures Wired(g) && g.filters == []
    ensures |g.mux| == 1 && |g.mux[0]| == 1 && !HasGround(g, g.mux[0][0])
  {
    var enc, dec := Node(Enc, 0, 0), Node(Dec, 0, 0);
    g := Graph([], [[enc]], [DecNode(enc, [[enc]])], [EncNode(dec, [Node(Mux, 0, 0), dec])], []);
    forall k: nat ensures !Grounded(g, enc, k) {
      NeverGrounded(g, k);
    }
  }

  lemma {:induction false} NeverGrounded(g: Graph, k: nat)
    requires |g.dec| > 0 && |g.enc| > 0 && g.dec[0].src == Node(Enc, 0, 0) && g.enc[0].src == Node(Dec, 0, 0)
    ensures !Grounded(g, Node(Enc, 0, 0), k) && !Grounded(g, Node(Dec, 0, 0), k)
  {
    if k > 0 {
      NeverGrounded(g, k - 1);
    }
  }

  /**
   One filtergraph feeds itself, `own`; the other, `fed`, is fed by a decoder and an encoder that
   feed each other.
   */
  function BothFaults(own: nat, fed: nat): Graph
    requires own < 2 && fed == 1 - own
  {
    var dec, enc := Node(Dec, 0, 0), Node(Enc, 0, 0);
    var a := FilterNode([Node(FilterOut, own, 0)], [Node(FilterIn, own, 0)]);
    var b := FilterNode([dec], [Node(Enc, 1, 0)]);
    Graph([], [[Node(Enc, 1, 0)]], [DecNode(enc, [[Node(FilterIn, fed, 0), enc]])],
          [EncNode(dec, [dec]), EncNode(Node(FilterOut, fed, 0), [Node(Mux, 0, 0)])],
          if own == 0 then [a, b] else [b, a])
  }

  lemma BothFaultsComplete(own: nat, fed: nat)
    requires own < 2 && fed == 1 - own
    ensures Complete(BothFaults(own, fed))
  {
  }

  lemma BothFaultsWired(own: nat, fed: nat)
    requires own < 2 && fed == 1 - own
    ensures Wired(BothFaults(own, fed))
  {
    BothFaultsComplete(own, fed);
    hide Complete;
    var g := BothFaults(own, fed);
    forall n: Node | SinkOk(g, n) ensures InputOk(g, n) {
    }
    hide InputOk;
    forall n: Node | SourceOk(g, n) ensures OutputsOk(g, n) {
    }
  }

  lemma BothFaultsSeen(own: nat, fed: nat)
    requires own < 2 && fed == 1 - own
    ensures var adj := FilterAdjacency(BothFaults(own, fed));
      |adj| == 2 && adj[own] == [own] && adj[fed] == [Cycles.ENDLESS]
  {
    var g := BothFaults(own, fed);
    forall k: nat ensures !Grounded(g, Node(Dec, 0, 0), k) {
      NeverGrounded(g, k);
    }
    var out := Node(FilterOut, own, 0);
    assert Grounded(g, out, 0);
  }

  lemma FaultOrder(adj: Cycles.Adjacency, own: nat, fed: nat)
    requires own < 2 && fed == 1 - own && |adj| == 2 && adj[own] == [own] && adj[fed] == [Cycles.ENDLESS]
    ensures Cycles.CycleAbove(adj, own) && HasEndless(adj, fed)
    ensures GetsStuck(adj) <==> own == 1
  {
    assert adj[fed][0] == Cycles.ENDLESS;
    assert Cycles.CycleAbove(adj, own) by {
      var p := [own, own];
      assert adj[own][0] == own;
      assert Cycles.Walk(adj, p) && p[0] == p[1];
    }
    var loops, hangs := [own, 0], [fed, 0];
    assert StopOf(adj, loops, false) && StopOf(adj, hangs, true);
    forall r, e | StopOf(adj, r, e) ensures r == if e then hangs else loops {
      assert r[1] == 0 && r[1..][0] == 0;
      assert |r| == 2;
    }
  }

  /** With both faults the answer depends on which comes first: an error, or none at all. */
  lemma FirstFaultDecides(own: nat, fed: nat)
    requires own < 2 && fed == 1 - own
    ensures var g := BothFaults(own, fed);
      Wired(g) && !FiltersFed(g) && !Acyclic(g) && (GetsStuck(FilterAdjacency(g)) <==> own == 1)
  {
    var g := BothFaults(own, fed);
    BothFaultsWired(own, fed);
    BothFaultsSeen(own, fed);
    FedIffAllEnd(g);
    hide BothFaults, Wired, FiltersFed, FilterAdjacency, GetsStuck, HasEndless, Cycles.CycleAbove;
    FaultOrder(FilterAdjacency(g), own, fed);
  }
}
