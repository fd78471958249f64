/**
 Which sources somebody waits for, said in terms of the connections alone: outputs and closed filter
 inputs wait for the source they are fed from, and a filtergraph that a released demuxer feeds into
 waits for the input it prefers, because otherwise it would block that demuxer.
 */
module Demand {
  import opened Topology
  import opened Closure
  import opened Decision
  import opened Timestamps
  import Cycles

  datatype Source = FromDemux(d: nat) | FromFilter(f: nat)

  function AsSource(n: Node): Source {
    if n.ty == Demux then FromDemux(n.idx) else FromFilter(n.idx)
  }

  // ---------------------------------------------------------------- downstream

  /** What a sink passes its data on to: a decoder to the first destination of each output, an encoder to all. */
  ghost predicate PassesTo(g: Graph, m: Node, n: Node) {
    || (m.ty == Dec && exists o: nat :: SourceOk(g, Node(Dec, m.idx, o)) && FirstDestination(g, Node(Dec, m.idx, o), n))
    || (m.ty == Enc && SourceOk(g, Node(Enc, m.idx, 0)) && n in Destinations(g, Node(Enc, m.idx, 0)))
  }

  predicate FirstDestination(g: Graph, src: Node, n: Node)
    requires SourceOk(g, src)
  {
    Destinations(g, src) != [] && Destinations(g, src)[0] == n
  }

  /** Data of demuxer `d` comes to sink `n` through `k` decoders and encoders. */
  ghost predicate UnderIn(g: Graph, d: nat, n: Node, k: nat)
    decreases k
  {
    if k == 0 then exists s: nat :: SourceOk(g, Node(Demux, d, s)) && FirstDestination(g, Node(Demux, d, s), n)
    else exists m :: UnderIn(g, d, m, k - 1) && PassesTo(g, m, n)
  }

  ghost predicate Under(g: Graph, d: nat, n: Node) {
    exists k: nat :: UnderIn(g, d, n, k)
  }

  /** Demuxer `d` feeds into filtergraph `f`. */
  ghost predicate Downstream(g: Graph, d: nat, f: nat) {
    exists n: Node :: n.ty == FilterIn && n.idx == f && f < |g.filters| && Under(g, d, n)
  }

  // ---------------------------------------------------------------- who is waited for

  ghost predicate Settings(g: Graph, v: View) {
    Ready(g) && ViewOk(g, v)
  }

  /** The source that input `j` of filtergraph `f` is fed from. */
  ghost function InputSource(g: Graph, v: View, f: nat, j: nat): Source
    requires Settings(g, v) && f < |g.filters| && j < |g.filters[f].inputs|
  {
    SinkFed(g, Node(FilterIn, f, j));
    AsSource(Resolve(g, v.best, g.filters[f].inputs[j]))
  }

  /** What a filtergraph waits for: the input it prefers, or its own turn. */
  ghost function Prefers(g: Graph, v: View, f: nat): Source
    requires Settings(g, v) && f < |g.filters|
  {
    if v.best[f] == |g.filters[f].inputs| then FromFilter(f) else InputSource(g, v, f, v.best[f])
  }

  /** An output stream waits: it is unfinished, and nowhere near as far as allowed beyond the trailing one. */
  predicate StreamWaits(g: Graph, v: View, dts: int, i: nat, j: nat)
    requires ViewOk(g, v)
  {
    && i < |g.mux| && j < |g.mux[i]| && !v.sourceFinished[i][j]
    && (dts == NOPTS ==> v.lastDts[i][j] == NOPTS)
    && (dts != NOPTS ==> v.lastDts[i][j] < dts + 100000)
  }

  /** A filtergraph has closed an input whose sender has not noticed. */
  predicate InputWaits(g: Graph, v: View, f: nat, j: nat)
    requires ViewOk(g, v)
  {
    f < |g.filters| && j < |g.filters[f].inputs| && v.receiveFinished[f][j] && !v.sendFinished[f][j]
  }

  /** Waited for directly, or through at most `k` released demuxers that would be blocked otherwise. */
  ghost predicate WaitedIn(g: Graph, v: View, dts: int, r: Source, k: nat)
    requires Settings(g, v)
    decreases k
  {
    || (exists i: nat, j: nat :: StreamWaits(g, v, dts, i, j) && SourceOk(g, g.mux[i][j])
                                 && r == AsSource(Resolve(g, v.best, g.mux[i][j])))
    || (exists f: nat, j: nat :: InputWaits(g, v, f, j) && r == InputSource(g, v, f, j))
    || (k > 0 && exists d: nat, f: nat :: f < |g.filters| && Downstream(g, d, f) && r == Prefers(g, v, f)
                                          && WaitedIn(g, v, dts, FromDemux(d), k - 1))
  }

  ghost predicate Waited(g: Graph, v: View, dts: int, r: Source)
    requires Settings(g, v)
  {
    exists k: nat :: WaitedIn(g, v, dts, r, k)
  }

  lemma WaitedBlocked(g: Graph, v: View, dts: int, d: nat, f: nat)
    requires Settings(g, v) && Waited(g, v, dts, FromDemux(d)) && Downstream(g, d, f) && f < |g.filters|
    ensures Waited(g, v, dts, Prefers(g, v, f))
  {
    var k: nat :| WaitedIn(g, v, dts, FromDemux(d), k);
    assert WaitedIn(g, v, dts, Prefers(g, v, f), k + 1);
  }

  // ---------------------------------------------------------------- what is explored is waited for

  /** The meaning of a position that the unchoking functions come to. */
  ghost predicate Justified(g: Graph, v: View, dts: int, p: Pos)
    requires Settings(g, v)
  {
    if p.Up? then SourceOk(g, p.n) && Waited(g, v, dts, AsSource(Resolve(g, v.best, p.n)))
    else SinkOk(g, p.n) && exists d: nat :: Waited(g, v, dts, FromDemux(d)) && Under(g, d, p.n)
  }

  lemma RootJustified(g: Graph, v: View, dts: int, p: Pos)
    requires Settings(g, v) && IsRoot(g, v, dts, p)
    ensures Justified(g, v, dts, p)
  {
    hide Ready, Resolve;
    if i: nat, j: nat :| Eligible(v, dts, i, j) && i < |g.mux| && j < |g.mux[i]| && p == Up(g.mux[i][j]) {
      OutputFed(g, v, i, j);
      assert StreamWaits(g, v, dts, i, j);
      assert WaitedIn(g, v, dts, AsSource(Resolve(g, v.best, p.n)), 0);
    } else {
      var f: nat, j: nat :| ClosedInput(g, v, f, j) && p == Up(g.filters[f].inputs[j]);
      InputFed(g, v, f, j);
      assert InputWaits(g, v, f, j);
      assert WaitedIn(g, v, dts, AsSource(Resolve(g, v.best, p.n)), 0);
    }
  }

  lemma OutputFed(g: Graph, v: View, i: nat, j: nat)
    requires Settings(g, v) && i < |g.mux| && j < |g.mux[i]|
    ensures SourceOk(g, g.mux[i][j])
  {
    SinkFed(g, Node(Mux, i, j));
  }

  lemma InputFed(g: Graph, v: View, f: nat, j: nat)
    requires Settings(g, v) && f < |g.filters| && j < |g.filters[f].inputs|
    ensures SourceOk(g, g.filters[f].inputs[j])
  {
    SinkFed(g, Node(FilterIn, f, j));
  }

  /** Climbing one step does not change the source a climb ends at. */
  lemma ResolveStep(g: Graph, v: View, n: Node, up: Node)
    requires Settings(g, v) && SourceOk(g, n) && n.ty != Demux && Step(g, v.best, Up(n), Up(up))
    ensures SourceOk(g, up) && Resolve(g, v.best, up) == Resolve(g, v.best, n)
  {
    if n.ty == Dec || n.ty == Enc {
      SinkFed(g, Node(n.ty, n.idx, 0));
    } else {
      SinkFed(g, Node(FilterIn, n.idx, v.best[n.idx]));
    }
  }

  lemma UpDownJustified(g: Graph, v: View, dts: int, p: Pos, q: Pos)
    requires Settings(g, v) && Justified(g, v, dts, p) && p.Up? && p.n.ty == Demux && Step(g, v.best, p, q)
    ensures Justified(g, v, dts, q)
  {
    hide Ready, Waited, ViewOk;
    var d := p.n.idx;
    var s :| 0 <= s < |g.demux[d]| && |g.demux[d][s]| > 0 && q == Down(g.demux[d][s][0]);
    DemuxSink(g, d, s);
    assert FirstDestination(g, Node(Demux, d, s), q.n);
    assert UnderIn(g, d, q.n, 0);
    assert Waited(g, v, dts, FromDemux(d));
  }

  lemma DemuxSink(g: Graph, d: nat, s: nat)
    requires Ready(g) && d < |g.demux| && s < |g.demux[d]| && |g.demux[d][s]| > 0
    ensures SinkOk(g, g.demux[d][s][0])
  {
    DemuxOutputs(g, d);
  }

  lemma DownSink(g: Graph, v: View, p: Pos, q: Pos)
    requires Settings(g, v) && p.Down? && q.Down? && Step(g, v.best, p, q) && SinkOk(g, p.n)
    ensures SinkOk(g, q.n) && PassesTo(g, p.n, q.n)
  {
    if p.n.ty == Dec {
      DecOutputs(g, p.n.idx);
      var outputs := g.dec[p.n.idx].outputs;
      var o :| 0 <= o < |outputs| && |outputs[o]| > 0 && q == Down(outputs[o][0]);
      assert SourceOk(g, Node(Dec, p.n.idx, o)) && FirstDestination(g, Node(Dec, p.n.idx, o), q.n);
    } else {
      EncOutputs(g, p.n.idx);
      assert Destinations(g, Node(Enc, p.n.idx, 0)) == g.enc[p.n.idx].dst;
    }
  }

  lemma UnderGrows(g: Graph, d: nat, m: Node, n: Node)
    requires Under(g, d, m) && PassesTo(g, m, n)
    ensures Under(g, d, n)
  {
    hide PassesTo;
    var k: nat :| UnderIn(g, d, m, k);
    assert UnderIn(g, d, n, k + 1);
  }

  lemma DownDownJustified(g: Graph, v: View, dts: int, p: Pos, q: Pos)
    requires Settings(g, v) && Justified(g, v, dts, p) && p.Down? && q.Down? && Step(g, v.best, p, q)
    ensures Justified(g, v, dts, q)
  {
    DownSink(g, v, p, q);
    hide Settings, Waited, Under, PassesTo, Step, SinkOk, SourceOk, Resolve;
    var d: nat :| Waited(g, v, dts, FromDemux(d)) && Under(g, d, p.n);
    UnderGrows(g, d, p.n, q.n);
  }

  lemma DownUpJustified(g: Graph, v: View, dts: int, p: Pos, q: Pos)
    requires Settings(g, v) && Justified(g, v, dts, p) && p.Down? && q.Up? && Step(g, v.best, p, q)
    ensures Justified(g, v, dts, q)
  {
    var f := p.n.idx;
    InputFed(g, v, f, v.best[f]);
    hide Ready, ViewOk, Waited, Under, Resolve;
    var d: nat :| Waited(g, v, dts, FromDemux(d)) && Under(g, d, p.n);
    assert Downstream(g, d, f);
    WaitedBlocked(g, v, dts, d, f);
  }

  lemma StepJustified(g: Graph, v: View, dts: int, p: Pos, q: Pos)
    requires Settings(g, v) && Justified(g, v, dts, p) && Step(g, v.best, p, q)
    ensures Justified(g, v, dts, q)
  {
    if p.Up? && p.n.ty == Demux {
      UpDownJustified(g, v, dts, p, q);
    } else if p.Up? {
      ResolveStep(g, v, p.n, q.n);
    } else if q.Down? {
      DownDownJustified(g, v, dts, p, q);
    } else {
      DownUpJustified(g, v, dts, p, q);
    }
  }

  lemma {:induction false} ReachJustified(g: Graph, v: View, dts: int, p: Pos, q: Pos, n: nat)
    requires Settings(g, v) && Justified(g, v, dts, p) && ReachIn(g, v.best, p, q, n)
    ensures Justified(g, v, dts, q)
    decreases n
  {
    hide Justified, Settings, Step;
    if n > 0 {
      var r :| Step(g, v.best, p, r) && ReachIn(g, v.best, r, q, n - 1);
      StepJustified(g, v, dts, p, r);
      ReachJustified(g, v, dts, r, q, n - 1);
    }
  }

  lemma DemandedJustified(g: Graph, v: View, dts: int, q: Pos)
    requires Settings(g, v) && Demanded(g, v, dts, q)
    ensures Justified(g, v, dts, q)
  {
    hide Justified, Settings, IsRoot;
    var p :| IsRoot(g, v, dts, p) && Reach(g, v.best, p, q);
    var n: nat :| ReachIn(g, v.best, p, q, n);
    RootJustified(g, v, dts, p);
    ReachJustified(g, v, dts, p, q, n);
  }

  // ---------------------------------------------------------------- what is waited for is explored

  lemma DemandedReach(g: Graph, v: View, dts: int, p: Pos, q: Pos)
    requires Demanded(g, v, dts, p) && Reach(g, v.best, p, q)
    ensures Demanded(g, v, dts, q)
  {
    var r :| IsRoot(g, v, dts, r) && Reach(g, v.best, r, p);
    ReachTrans(g, v.best, r, p, q);
  }

  lemma DemandedStep(g: Graph, v: View, dts: int, p: Pos, q: Pos)
    requires Demanded(g, v, dts, p) && Step(g, v.best, p, q)
    ensures Demanded(g, v, dts, q)
  {
    ReachRefl(g, v.best, q);
    ReachStep(g, v.best, p, q, q);
    DemandedReach(g, v, dts, p, q);
  }

  ghost predicate WantSource(g: Graph, v: View, dts: int, r: Source) {
    match r
    case FromDemux(d) => WantDemux(g, v, dts, d)
    case FromFilter(f) => WantFilter(g, v, dts, f)
  }

  /** Demanding a source position demands what it resolves to. */
  lemma ResolveWanted(g: Graph, v: View, dts: int, n: Node)
    requires Settings(g, v) && SourceOk(g, n) && Demanded(g, v, dts, Up(n))
    ensures WantSource(g, v, dts, AsSource(Resolve(g, v.best, n)))
  {
    ResolveReached(g, v.best, n);
    hide Ready, Resolve, Demanded, Reach;
    var r := Resolve(g, v.best, n);
    DemandedReach(g, v, dts, Up(n), Up(r));
    if r.ty == Demux {
      assert HitsDemux(Up(r), r.idx);
    }
  }

  lemma {:induction false} UnderDemanded(g: Graph, v: View, dts: int, d: nat, n: Node, k: nat)
    requires Settings(g, v) && WantDemux(g, v, dts, d) && UnderIn(g, d, n, k)
    ensures Demanded(g, v, dts, Down(n))
    decreases k
  {
    hide Ready, Demanded, ViewOk;
    if k == 0 {
      var q :| HitsDemux(q, d) && Demanded(g, v, dts, q);
      var s: nat :| SourceOk(g, Node(Demux, d, s)) && FirstDestination(g, Node(Demux, d, s), n);
      assert Down(n) == Down(g.demux[d][s][0]);
      DemandedStep(g, v, dts, q, Down(n));
    } else {
      var m :| UnderIn(g, d, m, k - 1) && PassesTo(g, m, n);
      UnderDemanded(g, v, dts, d, m, k - 1);
      PassesStep(g, v.best, m, n);
      DemandedStep(g, v, dts, Down(m), Down(n));
    }
  }

  lemma PassesStep(g: Graph, best: seq<nat>, m: Node, n: Node)
    requires PassesTo(g, m, n)
    ensures Step(g, best, Down(m), Down(n))
  {
    if m.ty == Dec {
      var o: nat :| SourceOk(g, Node(Dec, m.idx, o)) && FirstDestination(g, Node(Dec, m.idx, o), n);
      assert Down(n) == Down(g.dec[m.idx].outputs[o][0]);
    } else {
      var dst := g.enc[m.idx].dst;
      var k :| 0 <= k < |dst| && dst[k] == n;
    }
  }

  /** A released demuxer releases what the filtergraphs it feeds into wait for. */
  lemma BlockedWanted(g: Graph, v: View, dts: int, d: nat, f: nat)
    requires Settings(g, v) && WantDemux(g, v, dts, d) && Downstream(g, d, f) && f < |g.filters|
    ensures WantSource(g, v, dts, Prefers(g, v, f))
  {
    hide Resolve, Demanded, Reach, WantDemux;
    var n: Node :| n.ty == FilterIn && n.idx == f && Under(g, d, n);
    var k: nat :| UnderIn(g, d, n, k);
    UnderDemanded(g, v, dts, d, n, k);
    if v.best[f] == |g.filters[f].inputs| {
      assert HitsFilter(g, v.best, Down(n), f);
    } else {
      var up := g.filters[f].inputs[v.best[f]];
      InputFed(g, v, f, v.best[f]);
      DemandedStep(g, v, dts, Down(n), Up(up));
      ResolveWanted(g, v, dts, up);
    }
  }

  lemma RootWanted(g: Graph, v: View, dts: int, p: Pos)
    requires Settings(g, v) && IsRoot(g, v, dts, p) && SourceOk(g, p.n) && p.Up?
    ensures WantSource(g, v, dts, AsSource(Resolve(g, v.best, p.n)))
  {
    hide Ready, ViewOk, IsRoot;
    ReachRefl(g, v.best, p);
    assert Demanded(g, v, dts, p);
    ResolveWanted(g, v, dts, p.n);
  }

  lemma {:induction false} WaitedWanted(g: Graph, v: View, dts: int, r: Source, k: nat)
    requires Settings(g, v) && WaitedIn(g, v, dts, r, k)
    ensures WantSource(g, v, dts, r)
    decreases k
  {
    hide Ready, WantSource, Resolve, Downstream;
    if i: nat, j: nat :| StreamWaits(g, v, dts, i, j) && SourceOk(g, g.mux[i][j])
                         && r == AsSource(Resolve(g, v.best, g.mux[i][j])) {
      assert Eligible(v, dts, i, j);
      RootWanted(g, v, dts, Up(g.mux[i][j]));
    } else if f: nat, j: nat :| InputWaits(g, v, f, j) && r == InputSource(g, v, f, j) {
      InputFed(g, v, f, j);
      assert ClosedInput(g, v, f, j);
      RootWanted(g, v, dts, Up(g.filters[f].inputs[j]));
    } else {
      var d: nat, f: nat :| f < |g.filters| && Downstream(g, d, f) && r == Prefers(g, v, f)
                            && WaitedIn(g, v, dts, FromDemux(d), k - 1);
      WaitedWanted(g, v, dts, FromDemux(d), k - 1);
      assert WantDemux(g, v, dts, d) by {
        assert WantSource(g, v, dts, FromDemux(d));
        DemuxWanted(g, v, dts, d);
      }
      BlockedWanted(g, v, dts, d, f);
    }
  }

  lemma DemuxWanted(g: Graph, v: View, dts: int, d: nat)
    ensures WantSource(g, v, dts, FromDemux(d)) <==> WantDemux(g, v, dts, d)
  {
  }

  // ---------------------------------------------------------------- the two are the same

  /** Exactly the sources waited for are demanded. */
  lemma WaitedIff(g: Graph, v: View, dts: int, r: Source)
    requires Settings(g, v)
    ensures WantSource(g, v, dts, r) <==> Waited(g, v, dts, r)
  {
    hide Ready, Demanded, ViewOk, Waited, Under;
    if WantSource(g, v, dts, r) {
      WantedWaited(g, v, dts, r);
    }
    if Waited(g, v, dts, r) {
      WaitedSome(g, v, dts, r);
    }
  }

  lemma WaitedSome(g: Graph, v: View, dts: int, r: Source)
    requires Settings(g, v) && Waited(g, v, dts, r)
    ensures WantSource(g, v, dts, r)
  {
    hide WaitedIn, WantSource, Settings;
    var k: nat :| WaitedIn(g, v, dts, r, k);
    WaitedWanted(g, v, dts, r, k);
  }

  lemma WantedWaited(g: Graph, v: View, dts: int, r: Source)
    requires Settings(g, v) && WantSource(g, v, dts, r)
    ensures Waited(g, v, dts, r)
  {
    hide Ready, Demanded, Waited, Under;
    match r
    case FromDemux(d) =>
      var q :| HitsDemux(q, d) && Demanded(g, v, dts, q);
      DemandedJustified(g, v, dts, q);
    case FromFilter(f) =>
      var q :| HitsFilter(g, v.best, q, f) && Demanded(g, v, dts, q);
      DemandedJustified(g, v, dts, q);
      if q.Down? {
        var d: nat :| Waited(g, v, dts, FromDemux(d)) && Under(g, d, q.n);
        assert Downstream(g, d, f);
        WaitedBlocked(g, v, dts, d, f);
      }
  }

  predicate Released(demux: seq<bool>, filters: seq<bool>, r: Source) {
    match r
    case FromDemux(d) => d < |demux| && !demux[d]
    case FromFilter(f) => f < |filters| && !filters[f]
  }

  ghost predicate LastResort(v: View, dts: int, r: Source) {
    match r
    case FromDemux(d) => LastResortDemux(v, dts, d)
    case FromFilter(f) => LastResortFilter(v, dts, f)
  }

  lemma {:induction false} FirstNotSet(s: seq<bool>, k: nat) returns (d: nat)
    requires k < |s| && !s[k]
    ensures d <= k && !s[d] && forall e :: 0 <= e < d ==> s[e]
  {
    if e :| 0 <= e < k && !s[e] {
      d := FirstNotSet(s, e);
    } else {
      d := k;
    }
  }

  /** The last resort is one source: there is one exactly if no stream is eligible and a source has not exited. */
  lemma LastResortIsOne(v: View, dts: int)
    ensures forall r, q :: LastResort(v, dts, r) && LastResort(v, dts, q) ==> r == q
    ensures (exists r :: LastResort(v, dts, r)) <==>
      !AnyEligible(v, dts) && (false in v.demuxExited || false in v.filterExited)
  {
    forall r, q | LastResort(v, dts, r) && LastResort(v, dts, q) ensures r == q {
      if r.FromDemux? && q.FromDemux? {
        assert r.d <= q.d && q.d <= r.d;
      } else if r.FromFilter? && q.FromFilter? {
        assert r.f <= q.f && q.f <= r.f;
      }
    }
    if !AnyEligible(v, dts) {
      if false in v.demuxExited {
        var k: nat :| k < |v.demuxExited| && !v.demuxExited[k];
        var d := FirstNotSet(v.demuxExited, k);
        assert LastResort(v, dts, FromDemux(d));
      } else if false in v.filterExited {
        var k: nat :| k < |v.filterExited| && !v.filterExited[k];
        var f := FirstNotSet(v.filterExited, k);
        assert LastResort(v, dts, FromFilter(f));
      }
    }
  }

  predicate Exists(g: Graph, r: Source) {
    match r
    case FromDemux(d) => d < |g.demux|
    case FromFilter(f) => f < |g.filters|
  }

  /** A decision releases exactly the sources waited for, and the last resort. */
  lemma ReleasedIff(g: Graph, v: View, dts: int, demux: seq<bool>, filters: seq<bool>, r: Source)
    requires Settings(g, v) && Decided(g, v, dts, demux, filters) && Exists(g, r)
    ensures Released(demux, filters, r) <==> Waited(g, v, dts, r) || LastResort(v, dts, r)
  {
    hide Ready, Waited, WantDemux, WantFilter, LastResortDemux, LastResortFilter;
    WaitedIff(g, v, dts, r);
  }

  /**
   No released demuxer is left blocked: if it feeds into a filtergraph, then the source of the input
   which that filtergraph prefers is released too, or the filtergraph itself if it wants no input.
   */
  lemma NoneBlocked(g: Graph, v: View, dts: int, demux: seq<bool>, filters: seq<bool>, d: nat, f: nat)
    requires Settings(g, v) && Decided(g, v, dts, demux, filters)
    requires d < |g.demux| && f < |g.filters| && Downstream(g, d, f)
    requires !demux[d] && !LastResortDemux(v, dts, d)
    ensures if v.best[f] == |g.filters[f].inputs| then !filters[f]
            else SourceOk(g, g.filters[f].inputs[v.best[f]])
                 && Runs(demux, filters, Resolve(g, v.best, g.filters[f].inputs[v.best[f]]))
  {
    assert |demux| == |g.demux| && |filters| == |g.filters|;
    hide Waited, WantDemux, WantFilter, LastResortDemux, LastResortFilter, Downstream, Decided, Wired, ChainsEnd, Acyclic;
    ReleasedIff(g, v, dts, demux, filters, FromDemux(d));
    WaitedBlocked(g, v, dts, d, f);
    if v.best[f] == |g.filters[f].inputs| {
      ReleasedIff(g, v, dts, demux, filters, FromFilter(f));
    } else {
      InputFed(g, v, f, v.best[f]);
      var n := g.filters[f].inputs[v.best[f]];
      ResolveReached(g, v.best, n);
      ReleasedIff(g, v, dts, demux, filters, InputSource(g, v, f, v.best[f]));
    }
  }

  // ---------------------------------------------------------------- what a climb ends at

  /**
   A climb ends at the demuxer at the top of the chain; where that is a filtergraph, at it if it wants
   no input, and otherwise where the climb from the input it prefers ends.
   */
  lemma {:induction false} ResolveByRoot(g: Graph, v: View, n: Node)
    requires Settings(g, v) && SourceOk(g, n)
    ensures HasGround(g, n)
    ensures var top := Root(g, n);
      && SourceOk(g, top)
      && (top.ty == Demux ==> Resolve(g, v.best, n) == top)
      && (top.ty == FilterOut && v.best[top.idx] == |g.filters[top.idx].inputs| ==> Resolve(g, v.best, n) == top)
      && (top.ty == FilterOut && v.best[top.idx] < |g.filters[top.idx].inputs| ==>
            AsSource(Resolve(g, v.best, n)) == InputSource(g, v, top.idx, v.best[top.idx]))
    decreases (SourceGrounded(g, n); Depth(g, n))
  {
    SourceGrounded(g, n);
    RootOk(g, n);
    if n.ty == Dec || n.ty == Enc {
      DepthAbove(g, n);
      SinkFed(g, Node(n.ty, n.idx, 0));
      ResolveByRoot(g, v, Above(g, n));
    }
  }

  // ---------------------------------------------------------------- one filtergraph with two inputs

  /**
   Two inputs meet in a filtergraph whose output is encoded; another stream of the first input is
   copied.
   */
  function Overlay(): Graph {
    var dec0, dec1, enc := Node(Dec, 0, 0), Node(Dec, 1, 0), Node(Enc, 0, 0);
    Graph([[[dec0], [Node(Mux, 0, 1)]], [[dec1]]], [[enc, Node(Demux, 0, 1)]],
          [DecNode(Node(Demux, 0, 0), [[Node(FilterIn, 0, 0)]]), DecNode(Node(Demux, 1, 0), [[Node(FilterIn, 0, 1)]])],
          [EncNode(Node(FilterOut, 0, 0), [Node(Mux, 0, 0)])], [FilterNode([dec0, dec1], [enc])])
  }

  lemma OverlayComplete()
    ensures Complete(Overlay())
  {
  }

  lemma OverlayLinked()
    ensures Linked(Overlay())
  {
    var g := Overlay();
    forall n: Node | SinkOk(g, n) ensures InputOk(g, n) {
    }
    hide InputOk;
    forall n: Node | SourceOk(g, n) ensures OutputsOk(g, n) {
    }
  }

  lemma OverlayGrounded(n: Node)
    requires SourceOk(Overlay(), n)
    ensures Grounded(Overlay(), n, 3)
    ensures n.ty == Dec ==> HasGround(Overlay(), n) && Root(Overlay(), n) == Node(Demux, n.idx, 0)
  {
    var g := Overlay();
    if n.ty == Dec {
      var src := Node(Demux, n.idx, 0);
      assert Grounded(g, src, 0) && Grounded(g, n, 1);
      assert Above(g, n) == src;
      DepthAbove(g, n);
    }
  }

  lemma OverlayReady()
    ensures Ready(Overlay())
  {
    var g := Overlay();
    OverlayComplete();
    OverlayLinked();
    forall n: Node | SourceOk(g, n) ensures Grounded(g, n, Codecs(g)) {
      OverlayGrounded(n);
    }
    hide Wired, ChainsEnd, Grounded;
    var adj := FilterAdjacency(g);
    assert adj[0] == [-1, -1] by {
      OverlayGrounded(Node(Dec, 0, 0));
      OverlayGrounded(Node(Dec, 1, 0));
    }
    NoFeedsNoCycle(adj);
  }

  lemma NoFeedsNoCycle(adj: seq<seq<int>>)
    requires |adj| == 1 && adj[0] == [-1, -1]
    ensures Cycles.Acyclic(adj)
  {
    Cycles.CycleNeedsSource(adj, 0);
  }

  /** The filtergraph prefers its second input; `done` says whether both outputs are finished. */
  function OverlayView(done: bool): View {
    InitialView(Overlay(), [false]).(best := [1], lastDts := [[5000000, 0]], sourceFinished := [[done, done]])
  }

  lemma OverlayViewOk(done: bool, dts: int)
    requires dts == if done then NOPTS else 0
    ensures Settings(Overlay(), OverlayView(done))
    ensures var v := OverlayView(done);
      && v.best == [1] && v.demuxExited == [false, false] && v.filterExited == [false]
      && IsTrailing(v, false, dts)
      && (forall i: nat, j: nat :: Eligible(v, dts, i, j) <==> !done && i == 0 && j == 1)
      && (forall f: nat, j: nat :: !ClosedInput(Overlay(), v, f, j))
  {
    OverlayReady();
    hide Ready;
    assert !done ==> Counted(OverlayView(done), false, 0, 1);
  }

  lemma OverlayEdges()
    ensures var g, demux, dec := Overlay(), Node(Demux, 0, 0), Node(Dec, 0, 0);
      && |g.filters| == 1 && |g.filters[0].inputs| == 2 && g.filters[0].inputs[1] == Node(Dec, 1, 0)
      && SourceOk(g, demux) && Destinations(g, demux) == [dec]
      && SourceOk(g, dec) && Destinations(g, dec) == [Node(FilterIn, 0, 0)]
  {
  }

  lemma OverlayDownstream()
    ensures |Overlay().filters| == 1 && Downstream(Overlay(), 0, 0)
  {
    OverlayEdges();
    hide Overlay, SourceOk, Destinations;
    var g, dec, sink := Overlay(), Node(Dec, 0, 0), Node(FilterIn, 0, 0);
    assert FirstDestination(g, Node(Demux, 0, 0), dec);
    assert UnderIn(g, 0, dec, 0);
    assert FirstDestination(g, dec, sink);
    assert PassesTo(g, dec, sink);
    assert UnderIn(g, 0, sink, 1);
  }

  lemma OverlayPrefers(v: View)
    requires Settings(Overlay(), v) && v.best == [1]
    ensures |Overlay().filters| == 1
    ensures Prefers(Overlay(), v, 0) == FromDemux(1)
  {
    var n := Node(Dec, 1, 0);
    OverlayEdges();
    OverlayGrounded(n);
    hide Overlay, Root, Resolve, Ready, ViewOk;
    ResolveByRoot(Overlay(), v, n);
  }

  lemma OverlayCopies()
    ensures var g := Overlay(); |g.demux| == 2 && |g.mux| == 1 && |g.mux[0]| == 2 && g.mux[0][1] == Node(Demux, 0, 1)
  {
  }

  /** An eligible stream copied from a demuxer that feeds into a filtergraph releases what that prefers. */
  lemma CopyReleases(g: Graph, v: View, dts: int, demux: seq<bool>, filters: seq<bool>,
                     i: nat, j: nat, n: Node, f: nat, e: nat)
    requires Settings(g, v) && Decided(g, v, dts, demux, filters) && Eligible(v, dts, i, j)
    requires i < |g.mux| && j < |g.mux[i]| && g.mux[i][j] == n && n.ty == Demux && n.idx < |g.demux|
    requires f < |g.filters| && Downstream(g, n.idx, f) && Prefers(g, v, f) == FromDemux(e) && e < |g.demux|
    ensures |demux| == |g.demux| && |filters| == |g.filters| && !demux[n.idx] && !demux[e]
  {
    hide Settings, Eligible, Downstream, WantDemux, WantFilter, LastResortDemux, LastResortFilter, Prefers;
    EligibleMarks(g, v, dts, demux, filters, i, j, n);
    NoLastResort(v, dts, i, j);
    assert |demux| == |g.demux| && |filters| == |g.filters|;
    hide Decided, Waited;
    ReleasedIff(g, v, dts, demux, filters, FromDemux(n.idx));
    WaitedBlocked(g, v, dts, n.idx, f);
    ReleasedIff(g, v, dts, demux, filters, FromDemux(e));
  }

  lemma NoLastResort(v: View, dts: int, i: nat, j: nat)
    requires Eligible(v, dts, i, j)
    ensures forall d: nat :: !LastResortDemux(v, dts, d)
  {
    assert AnyEligible(v, dts);
  }

  /** With nothing waiting only the first demuxer that has not exited is released. */
  lemma OnlyLastResort(g: Graph, v: View, dts: int, demux: seq<bool>, filters: seq<bool>)
    requires Decided(g, v, dts, demux, filters)
    requires forall i: nat, j: nat :: !Eligible(v, dts, i, j)
    requires forall f: nat, j: nat :: !ClosedInput(g, v, f, j)
    ensures |demux| == |g.demux| && forall d: nat :: d < |demux| ==> (!demux[d] <==> FirstStaying(v, d))
  {
    NoneWanted(g, v, dts);
    hide Eligible, ClosedInput, WantDemux, WantFilter, AnyEligible, LastResortFilter;
  }

  lemma NoneWanted(g: Graph, v: View, dts: int)
    requires forall i: nat, j: nat :: !Eligible(v, dts, i, j)
    requires forall f: nat, j: nat :: !ClosedInput(g, v, f, j)
    ensures !AnyEligible(v, dts) && forall d: nat :: !WantDemux(g, v, dts, d)
  {
    hide Eligible, ClosedInput, Reach;
    assert forall p :: !IsRoot(g, v, dts, p);
  }

  /** The copied stream keeps the first input running, and thereby the second one, far ahead as its output is. */
  lemma CopyReleasesBoth(demux: seq<bool>, filters: seq<bool>)
    requires Decided(Overlay(), OverlayView(false), 0, demux, filters)
    ensures demux == [false, false]
  {
    hide *;
    var g, v := Overlay(), OverlayView(false);
    OverlayViewOk(false, 0);
    OverlayDownstream();
    OverlayPrefers(v);
    OverlayCopies();
    CopyReleases(g, v, 0, demux, filters, 0, 1, Node(Demux, 0, 1), 0, 1);
  }

  /** The last resort takes no account of this: it releases the first input alone. */
  lemma LastResortMayBlock(demux: seq<bool>, filters: seq<bool>)
    requires Decided(Overlay(), OverlayView(true), NOPTS, demux, filters)
    ensures Settings(Overlay(), OverlayView(true)) && |Overlay().filters| == 1 && Downstream(Overlay(), 0, 0)
    ensures Prefers(Overlay(), OverlayView(true), 0) == FromDemux(1)
    ensures demux == [false, true]
  {
    hide *;
    var g, v := Overlay(), OverlayView(true);
    OverlayViewOk(true, NOPTS);
    OverlayDownstream();
    OverlayPrefers(v);
    OverlayCopies();
    OnlyLastResort(g, v, NOPTS, demux, filters);
    FirstOfTwo(v);
  }

  lemma FirstOfTwo(v: View)
    requires v.demuxExited == [false, false]
    ensures FirstStaying(v, 0) && !FirstStaying(v, 1)
  {
  }
}
