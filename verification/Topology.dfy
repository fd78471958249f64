/**
 The transcoding graph of the scheduler: demuxers, decoders, filtergraphs,
 encoders and muxers, and the connections between them.  The graph is built
 before any task runs and never changes afterwards, so it is a value.
 */
module Topology {
  import Cycles

  datatype NodeType = NoType | Demux | Mux | Dec | Enc | FilterIn | FilterOut

  /** One endpoint: which node, and which of its streams. */
  datatype Node = Node(ty: NodeType, idx: nat, stream: nat)

  const NO_NODE := Node(NoType, 0, 0)

  datatype DecNode = DecNode(src: Node, outputs: seq<seq<Node>>)
  datatype EncNode = EncNode(src: Node, dst: seq<Node>)
  datatype FilterNode = FilterNode(inputs: seq<Node>, outputs: seq<Node>)

  /**
   `demux[d][s]` lists the destinations of demuxed stream `s`; `mux[m][s]` is the
   source of muxed stream `s`.  `NO_NODE` marks an endpoint not connected yet.
   */
  datatype Graph = Graph(
    demux: seq<seq<seq<Node>>>,
    mux: seq<seq<Node>>,
    dec: seq<DecNode>,
    enc: seq<EncNode>,
    filters: seq<FilterNode>)

  /** `n` names an existing source endpoint. */
  predicate SourceOk(g: Graph, n: Node) {
    match n.ty
    case Demux => n.idx < |g.demux| && n.stream < |g.demux[n.idx]|
    case Dec => n.idx < |g.dec| && n.stream < |g.dec[n.idx].outputs|
    case Enc => n.idx < |g.enc|
    case FilterOut => n.idx < |g.filters| && n.stream < |g.filters[n.idx].outputs|
    case _ => false
  }

  /** `n` names an existing sink endpoint. */
  predicate SinkOk(g: Graph, n: Node) {
    match n.ty
    case Mux => n.idx < |g.mux| && n.stream < |g.mux[n.idx]|
    case Dec => n.idx < |g.dec|
    case Enc => n.idx < |g.enc|
    case FilterIn => n.idx < |g.filters| && n.stream < |g.filters[n.idx].inputs|
    case _ => false
  }

  /** The source recorded at a sink. */
  function SourceOf(g: Graph, sink: Node): Node
    requires SinkOk(g, sink)
  {
    match sink.ty
    case Mux => g.mux[sink.idx][sink.stream]
    case Dec => g.dec[sink.idx].src
    case Enc => g.enc[sink.idx].src
    case FilterIn => g.filters[sink.idx].inputs[sink.stream]
  }

  /** The pairs of node types that may be connected. */
  predicate TypesMatch(src: NodeType, dst: NodeType) {
    match src
    case Demux => dst == Dec || dst == Mux
    case Dec => dst == FilterIn || dst == Enc
    case Enc => dst == Mux || dst == Dec
    case FilterOut => dst == Enc || dst == FilterIn
    case _ => false
  }

  /** Two source references denote the same endpoint; an encoder has one output. */
  predicate SameSource(a: Node, b: Node) {
    a.ty == b.ty && a.idx == b.idx && (a.ty != Enc ==> a.stream == b.stream)
  }

  /** The edge is recorded at both of its ends. */
  predicate EdgeOk(g: Graph, src: Node, dst: Node) {
    SinkOk(g, dst) && TypesMatch(src.ty, dst.ty) && SameSource(SourceOf(g, dst), src)
  }

  /** The sinks a source sends to, in the order they were connected. */
  function Destinations(g: Graph, n: Node): seq<Node>
    requires SourceOk(g, n)
  {
    match n.ty
    case Demux => g.demux[n.idx][n.stream]
    case Dec => g.dec[n.idx].outputs[n.stream]
    case Enc => g.enc[n.idx].dst
    case FilterOut =>
      var dst := g.filters[n.idx].outputs[n.stream];
      if dst.ty == NoType then [] else [dst]
  }

  /** What every connection call keeps: each edge is recorded at both of its ends. */
  ghost predicate Linked(g: Graph) {
    && (forall n: Node :: SourceOk(g, n) ==> OutputsOk(g, n))
    && (forall n: Node :: SinkOk(g, n) ==> InputOk(g, n))
  }

  ghost predicate OutputsOk(g: Graph, n: Node)
    requires SourceOk(g, n)
  {
    forall k :: 0 <= k < |Destinations(g, n)| ==> EdgeOk(g, n, Destinations(g, n)[k])
  }

  ghost predicate InputOk(g: Graph, n: Node)
    requires SinkOk(g, n)
  {
    SourceOf(g, n).ty == NoType || (SourceOk(g, SourceOf(g, n)) && TypesMatch(SourceOf(g, n).ty, n.ty))
  }

  /** Nothing is left dangling; this is what the start-up check looks for. */
  ghost predicate Complete(g: Graph) {
    && (forall n: Node :: SourceOk(g, n) ==> Destinations(g, n) != [])
    && (forall n: Node :: SinkOk(g, n) ==> SourceOf(g, n).ty != NoType)
  }

  ghost predicate Wired(g: Graph) {
    Linked(g) && Complete(g)
  }

  // ---------------------------------------------------------------- reading a wired graph

  lemma DecOutputs(g: Graph, i: nat)
    requires Wired(g) && i < |g.dec|
    ensures forall o :: 0 <= o < |g.dec[i].outputs| ==>
      |g.dec[i].outputs[o]| > 0 && EdgeOk(g, Node(Dec, i, o), g.dec[i].outputs[o][0])
  {
    forall o | 0 <= o < |g.dec[i].outputs| ensures Destinations(g, Node(Dec, i, o)) == g.dec[i].outputs[o] && OutputsOk(g, Node(Dec, i, o)) {
      assert SourceOk(g, Node(Dec, i, o));
    }
  }

  lemma EncOutputs(g: Graph, e: nat)
    requires Wired(g) && e < |g.enc|
    ensures forall k :: 0 <= k < |g.enc[e].dst| ==> EdgeOk(g, Node(Enc, e, 0), g.enc[e].dst[k])
  {
    assert SourceOk(g, Node(Enc, e, 0)) && OutputsOk(g, Node(Enc, e, 0));
  }

  lemma DemuxOutputs(g: Graph, d: nat)
    requires Wired(g) && d < |g.demux|
    ensures forall s :: 0 <= s < |g.demux[d]| ==>
      |g.demux[d][s]| > 0 && EdgeOk(g, Node(Demux, d, s), g.demux[d][s][0])
  {
    forall s | 0 <= s < |g.demux[d]| ensures Destinations(g, Node(Demux, d, s)) == g.demux[d][s] && OutputsOk(g, Node(Demux, d, s)) {
      assert SourceOk(g, Node(Demux, d, s));
    }
  }

  lemma SinkWired(g: Graph, n: Node)
    requires Wired(g) && SinkOk(g, n)
    ensures SourceOk(g, SourceOf(g, n)) && TypesMatch(SourceOf(g, n).ty, n.ty)
  {
    assert InputOk(g, n);
  }

  // ---------------------------------------------------------------- source chains

  /** The chain of decoders and encoders above `n` ends within `k` steps. */
  ghost predicate Grounded(g: Graph, n: Node, k: nat)
    decreases k
  {
    match n.ty
    case Dec => k > 0 && n.idx < |g.dec| && Grounded(g, g.dec[n.idx].src, k - 1)
    case Enc => k > 0 && n.idx < |g.enc| && Grounded(g, g.enc[n.idx].src, k - 1)
    case Demux => true
    case FilterOut => true
    case _ => false
  }

  ghost predicate HasGround(g: Graph, n: Node) {
    exists k: nat :: Grounded(g, n, k)
  }

  /** The number of decoders and encoders: no chain of distinct ones is longer. */
  function Codecs(g: Graph): nat {
    |g.dec| + |g.enc|
  }

  /** Every decoder and encoder is fed, possibly through others, by a demuxer or a filtergraph. */
  ghost predicate ChainsEnd(g: Graph) {
    forall n: Node :: SourceOk(g, n) ==> Grounded(g, n, Codecs(g))
  }

  /** The same for what feeds the filter inputs only. */
  ghost predicate FiltersFed(g: Graph) {
    forall f: nat, j: nat :: f < |g.filters| && j < |g.filters[f].inputs| ==>
      Grounded(g, g.filters[f].inputs[j], Codecs(g))
  }

  // ---------------------------------------------------------------- loops of decoders and encoders

  /** Decoders first, then encoders; -1 for anything else. */
  function CodecId(g: Graph, n: Node): int {
    if n.ty == Dec then n.idx else if n.ty == Enc then |g.dec| + n.idx else -1
  }

  /** Who feeds each decoder and encoder. */
  function CodecAdjacency(g: Graph): (adj: Cycles.Adjacency)
    ensures |adj| == Codecs(g)
    ensures forall i :: 0 <= i < |g.dec| ==> adj[i] == [CodecId(g, g.dec[i].src)]
    ensures forall i :: 0 <= i < |g.enc| ==> adj[|g.dec| + i] == [CodecId(g, g.enc[i].src)]
  {
    seq(Codecs(g), i requires 0 <= i < Codecs(g) =>
      [CodecId(g, if i < |g.dec| then g.dec[i].src else g.enc[i - |g.dec|].src)])
  }

  predicate IsCodec(n: Node) {
    n.ty == Dec || n.ty == Enc
  }

  /** The source of a decoder or encoder. */
  function CodecSource(g: Graph, n: Node): Node
    requires IsCodec(n) && SourceOk(g, n)
  {
    if n.ty == Dec then g.dec[n.idx].src else g.enc[n.idx].src
  }

  /** Climbing from a decoder or encoder runs round a loop. */
  ghost predicate LoopAbove(g: Graph, n: Node) {
    IsCodec(n) && Cycles.CycleAbove(CodecAdjacency(g), CodecId(g, n))
  }

  lemma CodecSourceOk(g: Graph, n: Node)
    requires Wired(g) && SourceOk(g, n) && IsCodec(n)
    ensures SourceOk(g, CodecSource(g, n))
  {
    hide TypesMatch;
    SinkWired(g, Node(n.ty, n.idx, 0));
  }

  lemma CodecFeeds(g: Graph, n: Node)
    requires SourceOk(g, n) && IsCodec(n)
    requires SourceOk(g, CodecSource(g, n))
    ensures CodecId(g, n) < Codecs(g)
    ensures forall h: nat :: Cycles.Feeds(CodecAdjacency(g), CodecId(g, n), h) ==> h == CodecId(g, CodecSource(g, n))
    ensures IsCodec(CodecSource(g, n)) ==>
      Cycles.Feeds(CodecAdjacency(g), CodecId(g, n), CodecId(g, CodecSource(g, n)))
  {
    hide CodecAdjacency;
    var adj, up := CodecAdjacency(g), CodecSource(g, n);
    assert adj[CodecId(g, n)] == [CodecId(g, up)];
    if IsCodec(up) {
      assert adj[CodecId(g, n)][0] == CodecId(g, up);
    }
  }

  lemma CodecFed(g: Graph, n: Node)
    requires Wired(g) && SourceOk(g, n) && IsCodec(n)
    ensures SourceOk(g, CodecSource(g, n))
    ensures CodecId(g, n) < Codecs(g)
    ensures forall h: nat :: Cycles.Feeds(CodecAdjacency(g), CodecId(g, n), h) ==> h == CodecId(g, CodecSource(g, n))
    ensures IsCodec(CodecSource(g, n)) ==>
      Cycles.Feeds(CodecAdjacency(g), CodecId(g, n), CodecId(g, CodecSource(g, n)))
  {
    hide Wired, SourceOk, CodecAdjacency, Cycles.Feeds;
    CodecSourceOk(g, n);
    CodecFeeds(g, n);
  }

  /** A climb that has not ended after `k` steps has passed `k + 1` decoders and encoders. */
  lemma {:induction false} LongClimb(g: Graph, n: Node, k: nat) returns (p: seq<nat>)
    requires Wired(g) && SourceOk(g, n) && !Grounded(g, n, k)
    ensures IsCodec(n) && Cycles.Walk(CodecAdjacency(g), p) && |p| == k + 1 && p[0] == CodecId(g, n)
    decreases k
  {
    hide Wired, CodecAdjacency;
    CodecFed(g, n);
    if k == 0 {
      p := [CodecId(g, n)];
    } else {
      var rest := LongClimb(g, CodecSource(g, n), k - 1);
      Cycles.WalkCons(CodecAdjacency(g), CodecId(g, n), rest);
      p := [CodecId(g, n)] + rest;
    }
  }

  lemma {:induction false} LoopNeverEnds(g: Graph, n: Node, k: nat)
    requires Wired(g) && SourceOk(g, n) && LoopAbove(g, n)
    ensures !Grounded(g, n, k)
    decreases k
  {
    hide Wired, CodecAdjacency;
    if k > 0 {
      var adj := CodecAdjacency(g);
      var p :| Cycles.Walk(adj, p) && p[0] == CodecId(g, n) && Cycles.Repeats(p);
      Cycles.ShiftRepeat(adj, p);
      CodecFed(g, n);
      LoopNeverEnds(g, CodecSource(g, n), k - 1);
    }
  }

  /**
   Climbing from a source ends if and only if it does not run round a loop of decoders and encoders,
   and then within as many steps as there are decoders and encoders.
   */
  lemma ClimbEndsIff(g: Graph, n: Node)
    requires Wired(g) && SourceOk(g, n)
    ensures HasGround(g, n) <==> Grounded(g, n, Codecs(g))
    ensures HasGround(g, n) <==> !LoopAbove(g, n)
  {
    if !Grounded(g, n, Codecs(g)) {
      var p := LongClimb(g, n, Codecs(g));
      if !Cycles.Repeats(p) {
        WalkInRange(CodecAdjacency(g), p);
        Cycles.DistinctBound(p, Codecs(g));
      }
      assert LoopAbove(g, n);
    }
    if LoopAbove(g, n) {
      forall k: nat ensures !Grounded(g, n, k) {
        LoopNeverEnds(g, n, k);
      }
    }
  }

  lemma WalkInRange(adj: Cycles.Adjacency, p: seq<nat>)
    requires Cycles.Walk(adj, p)
    ensures forall i :: 0 <= i < |p| ==> p[i] < |adj|
  {
    forall i | 0 <= i < |p| ensures p[i] < |adj| {
      if i > 0 {
        assert Cycles.Feeds(adj, p[i - 1], p[i]);
      }
    }
  }

  /** What feeds a decoder or encoder with a loop above it has one above it too. */
  lemma LoopHasSource(g: Graph, i: nat) returns (n: Node)
    requires Wired(g) && i < Codecs(g) && Cycles.CycleAbove(CodecAdjacency(g), i)
    ensures SourceOk(g, n) && LoopAbove(g, n)
  {
    var adj := CodecAdjacency(g);
    var p :| Cycles.Walk(adj, p) && p[0] == i && Cycles.Repeats(p);
    Cycles.ShiftRepeat(adj, p);
    var sink := if i < |g.dec| then Node(Dec, i, 0) else Node(Enc, i - |g.dec|, 0);
    SinkWired(g, sink);
    n := SourceOf(g, sink);
    assert adj[i] == [CodecId(g, n)];
  }

  /** All climbs end if and only if no decoder or encoder reaches itself. */
  lemma ChainsEndIffNoLoop(g: Graph)
    requires Wired(g)
    ensures ChainsEnd(g) <==> Cycles.Acyclic(CodecAdjacency(g))
  {
    if ChainsEnd(g) {
      forall i: nat | i < Codecs(g) ensures !Cycles.CycleAbove(CodecAdjacency(g), i) {
        if Cycles.CycleAbove(CodecAdjacency(g), i) {
          var n := LoopHasSource(g, i);
          ClimbEndsIff(g, n);
        }
      }
    }
    if Cycles.Acyclic(CodecAdjacency(g)) {
      forall n: Node | SourceOk(g, n) ensures Grounded(g, n, Codecs(g)) {
        ClimbEndsIff(g, n);
        if IsCodec(n) {
          CodecFed(g, n);
        }
      }
    }
  }

  /** What feeds the filter inputs can be climbed just when no filter input has such a loop above it. */
  lemma FiltersFedIffNoLoop(g: Graph)
    requires Wired(g)
    ensures FiltersFed(g) <==>
      forall f: nat, j: nat :: f < |g.filters| && j < |g.filters[f].inputs| ==> !LoopAbove(g, g.filters[f].inputs[j])
  {
    hide Grounded, LoopAbove, HasGround;
    forall f: nat, j: nat | f < |g.filters| && j < |g.filters[f].inputs|
      ensures Grounded(g, g.filters[f].inputs[j], Codecs(g)) <==> !LoopAbove(g, g.filters[f].inputs[j])
    {
      SinkWired(g, Node(FilterIn, f, j));
      ClimbEndsIff(g, g.filters[f].inputs[j]);
    }
  }

  ghost predicate IsDepth(g: Graph, n: Node, m: nat) {
    Grounded(g, n, m) && forall j: nat :: j < m ==> !Grounded(g, n, j)
  }

  lemma LeastGround(g: Graph, n: Node)
    requires HasGround(g, n)
    ensures exists m: nat :: IsDepth(g, n, m)
  {
    var k: nat :| Grounded(g, n, k);
    var m: nat := 0;
    while !Grounded(g, n, m)
      invariant m <= k && forall j: nat :: j < m ==> !Grounded(g, n, j)
      decreases k - m
    {
      m := m + 1;
    }
    assert IsDepth(g, n, m);
  }

  /** Length of the decoder/encoder chain above a source. */
  ghost function Depth(g: Graph, n: Node): (m: nat)
    requires HasGround(g, n)
    ensures IsDepth(g, n, m)
  {
    LeastGround(g, n);
    var m: nat :| IsDepth(g, n, m);
    m
  }

  /** The source one step further up a decoder or encoder. */
  ghost function Above(g: Graph, n: Node): (r: Node)
    requires HasGround(g, n) && (n.ty == Dec || n.ty == Enc)
    ensures HasGround(g, r)
  {
    var k: nat :| Grounded(g, n, k);
    var r := if n.ty == Dec then g.dec[n.idx].src else g.enc[n.idx].src;
    assert Grounded(g, r, k - 1);
    r
  }

  lemma DepthAbove(g: Graph, n: Node)
    requires HasGround(g, n) && (n.ty == Dec || n.ty == Enc)
    ensures Depth(g, n) == Depth(g, Above(g, n)) + 1
  {
    var up := Above(g, n);
    var a, b := Depth(g, n), Depth(g, up);
    assert Grounded(g, n, b + 1);
    assert a > 0 && Grounded(g, up, a - 1);
  }

  /** The demuxed stream or filtergraph output at the top of a source chain. */
  ghost function Root(g: Graph, n: Node): (r: Node)
    requires HasGround(g, n)
    ensures r.ty == Demux || r.ty == FilterOut
    decreases Depth(g, n)
  {
    if n.ty == Dec || n.ty == Enc then
      DepthAbove(g, n);
      Root(g, Above(g, n))
    else n
  }

  lemma {:induction false} RootOk(g: Graph, n: Node)
    requires Wired(g) && SourceOk(g, n) && HasGround(g, n)
    ensures SourceOk(g, Root(g, n))
    decreases Depth(g, n)
  {
    if n.ty == Dec || n.ty == Enc {
      DepthAbove(g, n);
      SinkWired(g, Node(n.ty, n.idx, 0));
      RootOk(g, Above(g, n));
    }
  }

  /**
   Walks up the chain to the filtergraph or demuxer that feeds it. Where the chain runs round a
   loop the walk goes on for ever; here it gives up once it has passed more decoders and encoders
   than there are, and says so.
   */
  method SrcFiltergraph(g: Graph, start: Node) returns (ends: bool, src: Node)
    requires Wired(g) && SourceOk(g, start)
    ensures ends <==> HasGround(g, start)
    ensures ends ==> src == Root(g, start)
  {
    hide Wired, SourceOk, LoopAbove;
    src := start;
    var steps := 0;
    ClimbEndsIff(g, start);
    while src.ty != Demux && src.ty != FilterOut
      invariant SourceOk(g, src) && steps <= Codecs(g)
      invariant Grounded(g, start, Codecs(g)) <==> Grounded(g, src, Codecs(g) - steps)
      invariant HasGround(g, start) ==> HasGround(g, src) && Root(g, src) == Root(g, start)
      decreases Codecs(g) - steps
    {
      SourceIsCodec(g, src);
      if steps == Codecs(g) {
        return false, src;
      }
      CodecSourceOk(g, src);
      if HasGround(g, start) {
        DepthAbove(g, src);
      }
      if src.ty == Dec {
        src := g.dec[src.idx].src;
      } else {
        src := g.enc[src.idx].src;
      }
      steps := steps + 1;
    }
    return true, src;
  }

  lemma SourceIsCodec(g: Graph, n: Node)
    requires SourceOk(g, n) && n.ty != Demux && n.ty != FilterOut
    ensures IsCodec(n) && (n.ty == Dec ==> n.idx < |g.dec|) && (n.ty == Enc ==> n.idx < |g.enc|)
  {
  }

  lemma SinkFed(g: Graph, n: Node)
    requires Wired(g) && ChainsEnd(g) && SinkOk(g, n)
    ensures SourceOk(g, SourceOf(g, n)) && HasGround(g, SourceOf(g, n)) && TypesMatch(SourceOf(g, n).ty, n.ty)
  {
    SinkWired(g, n);
    assert Grounded(g, SourceOf(g, n), Codecs(g));
  }

  lemma SourceGrounded(g: Graph, n: Node)
    requires ChainsEnd(g) && SourceOk(g, n)
    ensures HasGround(g, n)
  {
    assert Grounded(g, n, Codecs(g));
  }

  // ---------------------------------------------------------------- the filtergraph-level graph

  /** The filtergraph behind a source, -1 for a demuxer, or a way up that never ends. */
  ghost function Behind(g: Graph, n: Node): int {
    if !HasGround(g, n) then Cycles.ENDLESS
    else if Root(g, n).ty == FilterOut then Root(g, n).idx
    else -1
  }

  ghost function FilterInputs(g: Graph, f: nat): (r: seq<int>)
    requires f < |g.filters|
    ensures |r| == |g.filters[f].inputs|
  {
    seq(|g.filters[f].inputs|, j requires 0 <= j < |g.filters[f].inputs| => Behind(g, g.filters[f].inputs[j]))
  }

  /** Filtergraphs and who feeds them, decoders and encoders in between left out. */
  ghost function FilterAdjacency(g: Graph): (adj: Cycles.Adjacency)
    ensures |adj| == |g.filters|
    ensures forall f :: 0 <= f < |adj| ==> |adj[f]| == |g.filters[f].inputs|
    ensures forall f, j :: 0 <= f < |adj| && 0 <= j < |adj[f]| ==> adj[f][j] == Behind(g, g.filters[f].inputs[j])
  {
    seq(|g.filters|, f requires 0 <= f < |g.filters| => FilterInputs(g, f))
  }

  lemma AdjacencyInRange(g: Graph)
    requires Wired(g)
    ensures Cycles.InRange(FilterAdjacency(g))
  {
    var adj := FilterAdjacency(g);
    forall f, j | 0 <= f < |adj| && 0 <= j < |adj[f]| ensures Cycles.ENDLESS <= adj[f][j] < |adj| {
      SinkWired(g, Node(FilterIn, f, j));
      if HasGround(g, g.filters[f].inputs[j]) {
        RootOk(g, g.filters[f].inputs[j]);
      }
    }
  }

  /** No filtergraph feeds itself, as far as the ways up end. */
  ghost predicate Acyclic(g: Graph) {
    Cycles.Acyclic(FilterAdjacency(g))
  }

  /** What start-up has to establish before the first scheduling decision. */
  ghost predicate Ready(g: Graph) {
    Wired(g) && ChainsEnd(g) && Acyclic(g)
  }

  // ---------------------------------------------------------------- ranks for the two recursions

  /** Going upstream: the filtergraphs still above; the chain length breaks ties. */
  ghost function Height(g: Graph, n: Node): nat
    requires HasGround(g, n)
  {
    var r := Root(g, n);
    if r.ty == FilterOut then 1 + |Cycles.Ancestors(FilterAdjacency(g), r.idx)| else 0
  }

  lemma HeightAbove(g: Graph, n: Node)
    requires HasGround(g, n) && (n.ty == Dec || n.ty == Enc)
    ensures Height(g, Above(g, n)) == Height(g, n)
    ensures Depth(g, Above(g, n)) < Depth(g, n)
  {
    DepthAbove(g, n);
  }

  lemma HeightInput(g: Graph, n: Node, j: nat)
    requires Ready(g) && n.ty == FilterOut && SourceOk(g, n) && j < |g.filters[n.idx].inputs|
    ensures HasGround(g, g.filters[n.idx].inputs[j])
    ensures Height(g, g.filters[n.idx].inputs[j]) < Height(g, n)
  {
    var adj := FilterAdjacency(g);
    var up := g.filters[n.idx].inputs[j];
    SinkFed(g, Node(FilterIn, n.idx, j));
    RootOk(g, up);
    if Root(g, up).ty == FilterOut {
      assert adj[n.idx][j] == Root(g, up).idx;
      Cycles.AncestorsShrink(adj, n.idx, Root(g, up).idx);
    }
  }

  ghost function Deepest(g: Graph, ty: NodeType, i: nat): (m: nat)
    requires ChainsEnd(g) && (ty == Dec || ty == Enc)
    decreases i
  {
    if i == 0 then 0
    else
      var rest := Deepest(g, ty, i - 1);
      var n := Node(ty, i - 1, 0);
      if HasGround(g, n) && Depth(g, n) > rest then Depth(g, n) else rest
  }

  lemma {:induction false} DeepestBounds(g: Graph, n: Node, i: nat)
    requires ChainsEnd(g) && (n.ty == Dec || n.ty == Enc) && HasGround(g, n) && n.idx < i
    ensures Depth(g, n) <= Deepest(g, n.ty, i)
    decreases i
  {
    if n.idx < i - 1 {
      DeepestBounds(g, n, i - 1);
    } else {
      DepthIgnoresStream(g, n, Node(n.ty, n.idx, 0));
    }
  }

  lemma DepthIgnoresStream(g: Graph, a: Node, b: Node)
    requires a.ty == b.ty && a.idx == b.idx && HasGround(g, a)
    ensures HasGround(g, b) && Depth(g, a) == Depth(g, b)
  {
    assert forall k: nat :: Grounded(g, a, k) == Grounded(g, b, k);
    assert IsDepth(g, b, Depth(g, a));
  }

  /** Going downstream: how many decoders and encoders can still follow. */
  ghost function Room(g: Graph, n: Node): int
    requires ChainsEnd(g) && ((n.ty == Dec || n.ty == Enc) ==> HasGround(g, n))
  {
    if n.ty == Dec || n.ty == Enc then
      1 + Deepest(g, Dec, |g.dec|) + Deepest(g, Enc, |g.enc|) - Depth(g, n)
    else 0
  }

  lemma SinkGrounded(g: Graph, n: Node)
    requires Wired(g) && ChainsEnd(g) && SinkOk(g, n) && (n.ty == Dec || n.ty == Enc)
    ensures HasGround(g, n) && Room(g, n) > 0
  {
    var up := SourceOf(g, n);
    SinkFed(g, n);
    var k: nat :| Grounded(g, up, k);
    assert Grounded(g, n, k + 1);
    DeepestBounds(g, n, if n.ty == Dec then |g.dec| else |g.enc|);
  }

  lemma RoomShrinks(g: Graph, n: Node, src: Node, dst: Node)
    requires Wired(g) && ChainsEnd(g) && SinkOk(g, n) && (n.ty == Dec || n.ty == Enc)
    requires src.ty == n.ty && src.idx == n.idx && EdgeOk(g, src, dst)
    ensures HasGround(g, n) && ((dst.ty == Dec || dst.ty == Enc) ==> HasGround(g, dst))
    ensures 0 <= Room(g, dst) < Room(g, n)
  {
    SinkGrounded(g, n);
    if dst.ty == Dec || dst.ty == Enc {
      SinkGrounded(g, dst);
      DepthAbove(g, dst);
      DepthIgnoresStream(g, n, Above(g, dst));
    }
  }
}
