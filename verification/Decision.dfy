/**
 What a scheduling decision is, said without reference to how it is computed: a
 function of what the tasks have reported, independent of any order of visits.
 */
module Decision {
  import opened Topology
  import opened Closure
  import opened Tables
  import opened Timestamps

  /** In microseconds: how far ahead of the trailing stream an output may run. */
  const SCHEDULE_TOLERANCE: int := 100 * 1000

  /** What the tasks have reported so far. */
  datatype View = View(
    best: seq<nat>,
    lastDts: seq<seq<int>>,
    sourceFinished: seq<seq<bool>>,
    sendFinished: seq<seq<bool>>,
    receiveFinished: seq<seq<bool>>,
    demuxExited: seq<bool>,
    filterExited: seq<bool>)

  ghost predicate ViewOk(g: Graph, v: View) {
    && BestOk(g, v.best)
    && |v.lastDts| == |v.sourceFinished| == |g.mux|
    && (forall i :: 0 <= i < |g.mux| ==> |v.lastDts[i]| == |v.sourceFinished[i]| == |g.mux[i]|)
    && |v.sendFinished| == |v.receiveFinished| == |g.filters|
    && (forall f :: 0 <= f < |g.filters| ==> |v.sendFinished[f]| == |v.receiveFinished[f]| == |g.filters[f].inputs|)
    && |v.demuxExited| == |g.demux| && |v.filterExited| == |g.filters|
  }

  /** Filtergraphs taken out again before the start: cut off from everything, and exited from the beginning. */
  predicate RemovedOk(g: Graph, removed: seq<bool>) {
    && |removed| == |g.filters|
    && forall f :: 0 <= f < |removed| && removed[f] ==> g.filters[f].inputs == [] && g.filters[f].outputs == []
  }

  /** Before any task has run. */
  function InitialView(g: Graph, removed: seq<bool>): View {
    View(
      seq(|g.filters|, _ => 0),
      seq(|g.mux|, i requires 0 <= i < |g.mux| => seq(|g.mux[i]|, _ => NOPTS)),
      seq(|g.mux|, i requires 0 <= i < |g.mux| => seq(|g.mux[i]|, _ => false)),
      seq(|g.filters|, f requires 0 <= f < |g.filters| => seq(|g.filters[f].inputs|, _ => false)),
      seq(|g.filters|, f requires 0 <= f < |g.filters| => seq(|g.filters[f].inputs|, _ => false)),
      seq(|g.demux|, _ => false),
      removed)
  }

  // ---------------------------------------------------------------- the trailing stream

  predicate Counted(v: View, countFinished: bool, i: nat, j: nat) {
    && i < |v.lastDts| && j < |v.lastDts[i]|
    && i < |v.sourceFinished| && j < |v.sourceFinished[i]|
    && (v.sourceFinished[i][j] ==> countFinished)
  }

  ghost predicate SomeNopts(v: View, countFinished: bool) {
    exists i: nat, j: nat :: Counted(v, countFinished, i, j) && v.lastDts[i][j] == NOPTS
  }

  ghost predicate SomeDts(v: View, countFinished: bool) {
    exists i: nat, j: nat :: Counted(v, countFinished, i, j) && v.lastDts[i][j] < INT64_MAX
  }

  /** The least last timestamp of the counted streams, if every one of them has one. */
  ghost predicate IsTrailing(v: View, countFinished: bool, r: int) {
    && (SomeNopts(v, countFinished) || !SomeDts(v, countFinished) ==> r == NOPTS)
    && (!SomeNopts(v, countFinished) && SomeDts(v, countFinished) ==>
          && (exists i: nat, j: nat :: Counted(v, countFinished, i, j) && v.lastDts[i][j] == r)
          && (forall i: nat, j: nat :: Counted(v, countFinished, i, j) ==> r <= v.lastDts[i][j]))
  }

  /** An output stream that may be fed: unfinished and not too far ahead of the trailing one. */
  predicate Eligible(v: View, dts: int, i: nat, j: nat) {
    && Counted(v, false, i, j)
    && (if dts == NOPTS then v.lastDts[i][j] == NOPTS else v.lastDts[i][j] - dts < SCHEDULE_TOLERANCE)
  }

  ghost predicate AnyEligible(v: View, dts: int) {
    exists i: nat, j: nat :: Eligible(v, dts, i, j)
  }

  /**
   Some stream is eligible exactly when some unfinished stream has not run into the
   largest representable timestamp.  In particular the trailing stream always is.
   */
  lemma EligibleIffNotAtMax(v: View, dts: int)
    requires IsTrailing(v, false, dts)
    ensures AnyEligible(v, dts) <==> SomeDts(v, false)
  {
    if SomeDts(v, false) {
      if SomeNopts(v, false) {
        var i: nat, j: nat :| Counted(v, false, i, j) && v.lastDts[i][j] == NOPTS;
        assert Eligible(v, dts, i, j);
      } else {
        var i: nat, j: nat :| Counted(v, false, i, j) && v.lastDts[i][j] == dts;
        assert Eligible(v, dts, i, j);
      }
    }
  }

  /**
   A stream that is not finished may be fed exactly if it has no timestamp yet, or every unfinished
   stream has one, none of them 100 ms or more behind, and not all are at the largest.
   */
  lemma EligibleIff(v: View, dts: int, i: nat, j: nat)
    requires IsTrailing(v, false, dts) && Counted(v, false, i, j)
    ensures Eligible(v, dts, i, j) <==>
      || v.lastDts[i][j] == NOPTS
      || ((forall k: nat, l: nat :: Counted(v, false, k, l) ==>
             v.lastDts[k][l] != NOPTS && v.lastDts[i][j] < v.lastDts[k][l] + 100000)
          && exists k: nat, l: nat :: Counted(v, false, k, l) && v.lastDts[k][l] < INT64_MAX)
  {
  }

  // ---------------------------------------------------------------- the demanded sources

  /** A source somebody waits for: that of an eligible stream, or of a closed filter input. */
  ghost predicate IsRoot(g: Graph, v: View, dts: int, p: Pos) {
    || (exists i: nat, j: nat :: Eligible(v, dts, i, j) && i < |g.mux| && j < |g.mux[i]| && p == Up(g.mux[i][j]))
    || (exists f: nat, j: nat :: ClosedInput(g, v, f, j) && p == Up(g.filters[f].inputs[j]))
  }

  /** A filter input whose filtergraph wants no more but whose sender has not noticed. */
  predicate ClosedInput(g: Graph, v: View, f: nat, j: nat) {
    && f < |g.filters| && j < |g.filters[f].inputs|
    && f < |v.receiveFinished| && j < |v.receiveFinished[f]|
    && f < |v.sendFinished| && j < |v.sendFinished[f]|
    && v.receiveFinished[f][j] && !v.sendFinished[f][j]
  }

  ghost predicate Demanded(g: Graph, v: View, dts: int, q: Pos) {
    exists p :: IsRoot(g, v, dts, p) && Reach(g, v.best, p, q)
  }

  ghost predicate WantDemux(g: Graph, v: View, dts: int, d: nat) {
    exists q :: HitsDemux(q, d) && Demanded(g, v, dts, q)
  }

  ghost predicate WantFilter(g: Graph, v: View, dts: int, f: nat) {
    exists q :: HitsFilter(g, v.best, q, f) && Demanded(g, v, dts, q)
  }

  /** With no eligible stream, the first source still running is let through. */
  ghost predicate LastResortDemux(v: View, dts: int, d: nat) {
    && !AnyEligible(v, dts)
    && d < |v.demuxExited| && !v.demuxExited[d] && forall e :: 0 <= e < d ==> v.demuxExited[e]
  }

  ghost predicate LastResortFilter(v: View, dts: int, f: nat) {
    && !AnyEligible(v, dts) && (forall d :: 0 <= d < |v.demuxExited| ==> v.demuxExited[d])
    && f < |v.filterExited| && !v.filterExited[f] && forall e :: 0 <= e < f ==> v.filterExited[e]
  }

  /** The sources demanded before the last resort is considered. */
  ghost predicate Wanted(g: Graph, v: View, dts: int, demux: seq<bool>, filters: seq<bool>) {
    && |demux| == |g.demux| && |filters| == |g.filters|
    && (forall d: nat :: d < |demux| ==> (!demux[d] <==> WantDemux(g, v, dts, d)))
    && (forall f: nat :: f < |filters| ==> (!filters[f] <==> WantFilter(g, v, dts, f)))
  }

  /** The decision: who is choked. */
  ghost predicate Decided(g: Graph, v: View, dts: int, demux: seq<bool>, filters: seq<bool>) {
    && |demux| == |g.demux| && |filters| == |g.filters|
    && (forall d: nat :: d < |demux| ==> (!demux[d] <==> WantDemux(g, v, dts, d) || LastResortDemux(v, dts, d)))
    && (forall f: nat :: f < |filters| ==> (!filters[f] <==> WantFilter(g, v, dts, f) || LastResortFilter(v, dts, f)))
  }

  lemma TrailingUnique(v: View, countFinished: bool, r: int, s: int)
    requires IsTrailing(v, countFinished, r) && IsTrailing(v, countFinished, s)
    ensures r == s
  {
    if !SomeNopts(v, countFinished) && SomeDts(v, countFinished) {
      var i: nat, j: nat :| Counted(v, countFinished, i, j) && v.lastDts[i][j] == r;
      var k: nat, l: nat :| Counted(v, countFinished, k, l) && v.lastDts[k][l] == s;
    }
  }

  /**
   What has been reported determines the decision: neither the order in which outputs, streams
   and filtergraphs are visited nor anything decided before has a part in it.
   */
  lemma DecisionUnique(g: Graph, v: View, dts: int, demux: seq<bool>, filters: seq<bool>,
                       dts': int, demux': seq<bool>, filters': seq<bool>)
    requires IsTrailing(v, false, dts) && Decided(g, v, dts, demux, filters)
    requires IsTrailing(v, false, dts') && Decided(g, v, dts', demux', filters')
    ensures dts == dts' && demux == demux' && filters == filters'
  {
    hide IsTrailing, WantDemux, WantFilter, LastResortDemux, LastResortFilter;
    TrailingUnique(v, false, dts, dts');
    forall d: nat | d < |demux| ensures demux[d] == demux'[d] {}
    forall f: nat | f < |filters| ensures filters[f] == filters'[f] {}
  }

  /** What the exploration marked is what is demanded. */
  lemma ExploredIsWanted(g: Graph, v: View, dts: int, roots: set<Pos>, seen: set<Pos>,
                         demux: seq<bool>, filters: seq<bool>)
    requires Explored(g, v.best, {}, seen, roots) && roots <= seen
    requires forall p :: p in roots <==> IsRoot(g, v, dts, p)
    requires MarksOk(g, v.best, demux, filters, seen)
    ensures Wanted(g, v, dts, demux, filters)
  {
    assert forall q :: q in seen <==> Demanded(g, v, dts, q) by {
      hide Explored, MarksOk, Reach, IsRoot;
      ExploredExactly(g, v.best, seen, roots);
    }
    hide Explored, IsRoot, Demanded, HitsDemux, HitsFilter, ReachFrom;
    forall d: nat ensures DemuxSeen(seen, d) <==> WantDemux(g, v, dts, d) {}
    forall f: nat ensures FilterSeen(g, v.best, seen, f) <==> WantFilter(g, v, dts, f) {}
  }

  // ---------------------------------------------------------------- progress

  /** The source that climbing from `n` ends at. */
  ghost function Resolve(g: Graph, best: seq<nat>, n: Node): (r: Node)
    requires Ready(g) && BestOk(g, best) && SourceOk(g, n)
    decreases (SourceGrounded(g, n); Height(g, n)), (SourceGrounded(g, n); Depth(g, n))
  {
    SourceGrounded(g, n);
    match n.ty
    case Dec => HeightAbove(g, n); SinkFed(g, Node(Dec, n.idx, 0)); Resolve(g, best, g.dec[n.idx].src)
    case Enc => HeightAbove(g, n); SinkFed(g, Node(Enc, n.idx, 0)); Resolve(g, best, g.enc[n.idx].src)
    case FilterOut =>
      if best[n.idx] == |g.filters[n.idx].inputs| then n
      else
        HeightInput(g, n, best[n.idx]);
        SinkFed(g, Node(FilterIn, n.idx, best[n.idx]));
        Resolve(g, best, g.filters[n.idx].inputs[best[n.idx]])
    case _ => n
  }

  lemma {:induction false} ResolveReached(g: Graph, best: seq<nat>, n: Node)
    requires Ready(g) && BestOk(g, best) && SourceOk(g, n)
    ensures Reach(g, best, Up(n), Up(Resolve(g, best, n)))
    ensures var r := Resolve(g, best, n);
      SourceOk(g, r) && (r.ty == Demux || HitsFilter(g, best, Up(r), r.idx))
    decreases (SourceGrounded(g, n); Height(g, n)), (SourceGrounded(g, n); Depth(g, n))
  {
    hide Wired, ChainsEnd, Acyclic, Height, Depth, Reach;
    SourceGrounded(g, n);
    ReachRefl(g, best, Up(n));
    var up := if n.ty == Dec then g.dec[n.idx].src
              else if n.ty == Enc then g.enc[n.idx].src
              else if n.ty == FilterOut && best[n.idx] < |g.filters[n.idx].inputs| then g.filters[n.idx].inputs[best[n.idx]]
              else n;
    if n.ty == Dec || n.ty == Enc {
      HeightAbove(g, n);
      SinkFed(g, Node(n.ty, n.idx, 0));
      ResolveReached(g, best, up);
      ReachStep(g, best, Up(n), Up(up), Up(Resolve(g, best, up)));
    } else if n.ty == FilterOut && best[n.idx] < |g.filters[n.idx].inputs| {
      HeightInput(g, n, best[n.idx]);
      SinkFed(g, Node(FilterIn, n.idx, best[n.idx]));
      ResolveReached(g, best, up);
      ReachStep(g, best, Up(n), Up(up), Up(Resolve(g, best, up)));
    }
  }

  predicate Runs(demux: seq<bool>, filters: seq<bool>, n: Node) {
    || (n.ty == Demux && n.idx < |demux| && !demux[n.idx])
    || (n.ty == FilterOut && n.idx < |filters| && !filters[n.idx])
  }

  /** Every eligible stream's resolved source is allowed to run. */
  lemma EligibleSourceRuns(g: Graph, v: View, dts: int, demux: seq<bool>, filters: seq<bool>, i: nat, j: nat)
    requires Ready(g) && ViewOk(g, v) && Decided(g, v, dts, demux, filters)
    requires Eligible(v, dts, i, j)
    ensures SourceOk(g, g.mux[i][j]) && Runs(demux, filters, Resolve(g, v.best, g.mux[i][j]))
  {
    var n := g.mux[i][j];
    SinkFed(g, Node(Mux, i, j));
    ResolveReached(g, v.best, n);
    var r := Resolve(g, v.best, n);
    assert IsRoot(g, v, dts, Up(n));
    assert Demanded(g, v, dts, Up(r));
    if r.ty == Demux {
      assert HitsDemux(Up(r), r.idx);
      assert WantDemux(g, v, dts, r.idx);
    } else {
      assert WantFilter(g, v, dts, r.idx);
    }
  }

  /** A demuxer gets a task only if one of its streams is used. */
  predicate HasTask(g: Graph, d: nat) {
    d < |g.demux| && g.demux[d] != []
  }

  /** The demuxer the last resort would come to. */
  predicate FirstStaying(v: View, d: nat) {
    d < |v.demuxExited| && !v.demuxExited[d] && forall e :: 0 <= e < d ==> v.demuxExited[e]
  }

  ghost predicate FilterStays(v: View) {
    (forall d :: 0 <= d < |v.demuxExited| ==> v.demuxExited[d]) && exists f :: 0 <= f < |v.filterExited| && !v.filterExited[f]
  }

  /** The source that climbing from an output stream ends at has a task and is let through. */
  ghost predicate Served(g: Graph, best: seq<nat>, demux: seq<bool>, filters: seq<bool>, i: nat, j: nat)
    requires Ready(g) && BestOk(g, best)
  {
    && i < |g.mux| && j < |g.mux[i]| && SourceOk(g, g.mux[i][j])
    && var r := Resolve(g, best, g.mux[i][j]);
       Runs(demux, filters, r) && (r.ty == Demux ==> HasTask(g, r.idx))
  }

  /** What the last resort finds has a task to run. */
  ghost predicate LastResortHelps(g: Graph, v: View) {
    (exists d: nat :: FirstStaying(v, d) && HasTask(g, d)) || FilterStays(v)
  }

  /** A source with a task that has not exited and that somebody demands. */
  ghost predicate TaskDemanded(g: Graph, v: View, dts: int) {
    || (exists d: nat :: HasTask(g, d) && d < |v.demuxExited| && !v.demuxExited[d] && WantDemux(g, v, dts, d))
    || (exists f: nat :: f < |v.filterExited| && !v.filterExited[f] && WantFilter(g, v, dts, f))
  }

  /** A source with a task that has not exited is let through. */
  ghost predicate TaskRuns(g: Graph, v: View, demux: seq<bool>, filters: seq<bool>) {
    || (exists d: nat :: HasTask(g, d) && d < |v.demuxExited| && !v.demuxExited[d] && d < |demux| && !demux[d])
    || (exists f: nat :: f < |v.filterExited| && !v.filterExited[f] && f < |filters| && !filters[f])
  }

  /**
   With no eligible stream, the last resort lets a source with a task through if and only if the
   first demuxer that has not exited has one, or all demuxers have exited and a filtergraph has not.
   */
  lemma LastResortIff(g: Graph, v: View, dts: int)
    requires ViewOk(g, v) && !AnyEligible(v, dts)
    ensures (exists d: nat :: LastResortDemux(v, dts, d) && HasTask(g, d)) || (exists f: nat :: LastResortFilter(v, dts, f))
      <==> LastResortHelps(g, v)
  {
    hide AnyEligible;
    if exists d: nat :: FirstStaying(v, d) && HasTask(g, d) {
      var d: nat :| FirstStaying(v, d) && HasTask(g, d);
      assert LastResortDemux(v, dts, d);
    } else if FilterStays(v) {
      var f := FirstFalse(v.filterExited);
      assert LastResortFilter(v, dts, f);
    }
    if exists d: nat :: LastResortDemux(v, dts, d) && HasTask(g, d) {
      var d: nat :| LastResortDemux(v, dts, d) && HasTask(g, d);
      assert FirstStaying(v, d);
    }
  }

  /**
   A source with a task that has not exited is let through exactly when an eligible stream or a
   closed filter input demands one, or no stream is eligible and the last resort finds one.
   */
  lemma TaskRunsIff(g: Graph, v: View, dts: int, demux: seq<bool>, filters: seq<bool>)
    requires ViewOk(g, v) && Decided(g, v, dts, demux, filters)
    ensures TaskRuns(g, v, demux, filters) <==>
      TaskDemanded(g, v, dts) || (!AnyEligible(v, dts) && LastResortHelps(g, v))
  {
    hide AnyEligible, WantDemux, WantFilter;
    if !AnyEligible(v, dts) {
      LastResortIff(g, v, dts);
    }
  }

  /**
   While an output is unfinished (and short of the largest timestamp), the source that some eligible
   output is fed from is let through. It has a task; the task may have exited, while what it sent is
   still on its way. When no output is eligible any more, the flag of a source that has not exited is
   released if there is one. A task that has not exited is let through exactly as stated last.
   */
  lemma Progress(g: Graph, v: View, dts: int, demux: seq<bool>, filters: seq<bool>)
    requires Ready(g) && ViewOk(g, v) && IsTrailing(v, false, dts) && Decided(g, v, dts, demux, filters)
    ensures SomeDts(v, false) ==>
      exists i: nat, j: nat :: Eligible(v, dts, i, j) && Served(g, v.best, demux, filters, i, j)
    ensures !SomeDts(v, false) && (exists d :: 0 <= d < |g.demux| && !v.demuxExited[d]) ==>
      exists d :: 0 <= d < |g.demux| && !v.demuxExited[d] && !demux[d]
    ensures !SomeDts(v, false) && (forall d :: 0 <= d < |g.demux| ==> v.demuxExited[d])
            && (exists f :: 0 <= f < |g.filters| && !v.filterExited[f]) ==>
      exists f :: 0 <= f < |g.filters| && !v.filterExited[f] && !filters[f]
    ensures TaskRuns(g, v, demux, filters) <==>
      TaskDemanded(g, v, dts) || (!SomeDts(v, false) && LastResortHelps(g, v))
  {
    EligibleIffNotAtMax(v, dts);
    hide AnyEligible, TaskRuns, TaskDemanded, LastResortHelps;
    TaskRunsIff(g, v, dts, demux, filters);
    if SomeDts(v, false) {
      EligibleRuns(g, v, dts, demux, filters);
    } else {
      if exists d :: 0 <= d < |g.demux| && !v.demuxExited[d] {
        var d := FirstFalse(v.demuxExited);
        assert LastResortDemux(v, dts, d) && !demux[d];
      } else if exists f :: 0 <= f < |g.filters| && !v.filterExited[f] {
        var f := FirstFalse(v.filterExited);
        assert LastResortFilter(v, dts, f) && !filters[f];
      }
    }
  }

  lemma EligibleRuns(g: Graph, v: View, dts: int, demux: seq<bool>, filters: seq<bool>)
    requires Ready(g) && ViewOk(g, v) && AnyEligible(v, dts) && Decided(g, v, dts, demux, filters)
    ensures exists i: nat, j: nat :: Eligible(v, dts, i, j) && Served(g, v.best, demux, filters, i, j)
  {
    hide Wired, ChainsEnd, Acyclic, Decided;
    var i: nat, j: nat :| Eligible(v, dts, i, j);
    EligibleSourceRuns(g, v, dts, demux, filters, i, j);
    ResolveReached(g, v.best, g.mux[i][j]);
    assert Served(g, v.best, demux, filters, i, j);
  }

  /** Two inputs, of which only the second is used. */
  function UnusedDemuxer(): Graph {
    Graph([[], [[Node(Mux, 0, 0)]]], [[Node(Demux, 1, 0)]], [], [], [])
  }

  lemma UnusedDemuxerReady()
    ensures Ready(UnusedDemuxer())
  {
  }

  /**
   A demuxer none of whose streams is used has no task and never exits. Here it comes first, and
   once the only output is finished the last resort stops at it: the demuxer with a task stays choked.
   */
  lemma UnusedDemuxerTakesLastResort() returns (v: View)
    ensures var g := UnusedDemuxer();
      && Ready(g) && ViewOk(g, v) && IsTrailing(v, false, NOPTS)
      && !HasTask(g, 0) && HasTask(g, 1) && v.demuxExited == [false, false] && !LastResortHelps(g, v)
      && forall demux, filters :: Decided(g, v, NOPTS, demux, filters) ==>
           demux == [false, true] && filters == [] && !TaskRuns(g, v, demux, filters)
  {
    UnusedDemuxerReady();
    hide Ready, Reach;
    var g := UnusedDemuxer();
    v := InitialView(g, []).(sourceFinished := [[true]]);
    assert forall i: nat, j: nat :: !Eligible(v, NOPTS, i, j);
    assert forall p :: !IsRoot(g, v, NOPTS, p);
    assert forall d: nat :: !WantDemux(g, v, NOPTS, d);
    assert FirstStaying(v, 0) && !HasTask(g, 0);
    assert LastResortDemux(v, NOPTS, 0) && !LastResortDemux(v, NOPTS, 1);
  }

  /** A source is not demanded if the roots lie in a closed set of positions that does not hit it. */
  lemma NotDemanded(g: Graph, v: View, dts: int, closed: set<Pos>, d: nat)
    requires forall p :: IsRoot(g, v, dts, p) ==> p in closed
    requires forall p :: p in closed ==> ClosedAt(g, v.best, closed, p) && !HitsDemux(p, d)
    ensures !WantDemux(g, v, dts, d)
  {
    forall q | HitsDemux(q, d) ensures !Demanded(g, v, dts, q) {
      if Demanded(g, v, dts, q) {
        var p :| IsRoot(g, v, dts, p) && Reach(g, v.best, p, q);
        var n: nat :| ReachIn(g, v.best, p, q, n);
        ClosedReach(g, v.best, closed, p, q, n);
      }
    }
  }

  /** One input transcoded into the first output stream, another one copied into the second. */
  function TwoInputs(): Graph {
    var dec, enc := Node(Dec, 0, 0), Node(Enc, 0, 0);
    Graph([[[dec]], [[Node(Mux, 0, 1)]]], [[enc, Node(Demux, 1, 0)]],
          [DecNode(Node(Demux, 0, 0), [[enc]])], [EncNode(dec, [Node(Mux, 0, 0)])], [])
  }

  lemma TwoInputsReady()
    ensures Ready(TwoInputs())
  {
    var g := TwoInputs();
    var demux, dec, enc := Node(Demux, 0, 0), Node(Dec, 0, 0), Node(Enc, 0, 0);
    assert Grounded(g, demux, 0) && Grounded(g, dec, 1) && Grounded(g, enc, 2);
    assert Grounded(g, demux, 1) && Grounded(g, demux, 2) && Grounded(g, dec, 2);
  }

  /** How far the two outputs have got, and which inputs are done. */
  function TwoInputsView(a: int, b: int, exited: seq<bool>): View {
    InitialView(TwoInputs(), []).(lastDts := [[a, b]], demuxExited := exited)
  }

  lemma TwoInputsViewOk(a: int, b: int, exited: seq<bool>)
    requires |exited| == 2
    ensures var v := TwoInputsView(a, b, exited);
      && ViewOk(TwoInputs(), v) && v.lastDts == [[a, b]] && v.demuxExited == exited && v.filterExited == []
      && forall i: nat, j: nat :: Counted(v, false, i, j) <==> i == 0 && j < 2
  {
  }

  /** With one eligible stream, its source is all that is demanded. */
  lemma TwoInputsRoots(v: View, dts: int, k: nat)
    requires ViewOk(TwoInputs(), v) && k < 2
    requires forall i: nat, j: nat :: Eligible(v, dts, i, j) <==> i == 0 && j == k
    ensures forall p :: IsRoot(TwoInputs(), v, dts, p) ==> p == Up(TwoInputs().mux[0][k])
  {
  }

  /** What the unchoking functions explore from either output. */
  function Explores(k: nat): set<Pos> {
    var src, dec, enc := Node(Demux, 0, 0), Node(Dec, 0, 0), Node(Enc, 0, 0);
    if k == 0 then {Up(enc), Up(dec), Up(src), Down(dec), Down(enc), Down(Node(Mux, 0, 0))}
    else {Up(Node(Demux, 1, 0)), Down(Node(Mux, 0, 1))}
  }

  lemma ExploresClosed(k: nat, p: Pos)
    requires k < 2 && p in Explores(k)
    ensures ClosedAt(TwoInputs(), [], Explores(k), p) && !HitsDemux(p, 1 - k)
    ensures Up(TwoInputs().mux[0][k]) in Explores(k)
  {
  }

  /** Then the input of the other stream is not demanded. */
  lemma OtherNotDemanded(v: View, dts: int, k: nat)
    requires ViewOk(TwoInputs(), v) && k < 2
    requires forall i: nat, j: nat :: Eligible(v, dts, i, j) <==> i == 0 && j == k
    ensures !WantDemux(TwoInputs(), v, dts, 1 - k)
  {
    TwoInputsRoots(v, dts, k);
    assert v.best == [];
    hide IsRoot, Eligible, ClosedAt, TwoInputs;
    assert Up(Node(Demux, 1, 0)) in Explores(1) && Up(Node(Enc, 0, 0)) in Explores(0);
    ExploresClosed(k, if k == 0 then Up(Node(Enc, 0, 0)) else Up(Node(Demux, 1, 0)));
    forall p | p in Explores(k) ensures ClosedAt(TwoInputs(), v.best, Explores(k), p) && !HitsDemux(p, 1 - k) {
      ExploresClosed(k, p);
    }
    NotDemanded(TwoInputs(), v, dts, Explores(k), 1 - k);
  }

  lemma AheadTrails()
    ensures var v := TwoInputsView(200000, 0, [false, false]);
      && ViewOk(TwoInputs(), v) && IsTrailing(v, false, 0)
      && forall i: nat, j: nat :: Eligible(v, 0, i, j) <==> i == 0 && j == 1
  {
    TwoInputsViewOk(200000, 0, [false, false]);
    hide TwoInputsView, ViewOk;
    assert Counted(TwoInputsView(200000, 0, [false, false]), false, 0, 1);
  }

  /** The transcoded stream is 200 ms ahead, so that its input is choked although it has not exited. */
  lemma AheadIsChoked(demux: seq<bool>, filters: seq<bool>)
    requires Decided(TwoInputs(), TwoInputsView(200000, 0, [false, false]), 0, demux, filters)
    ensures ViewOk(TwoInputs(), TwoInputsView(200000, 0, [false, false]))
    ensures IsTrailing(TwoInputsView(200000, 0, [false, false]), false, 0)
    ensures demux == [true, false] && filters == []
  {
    var g, v := TwoInputs(), TwoInputsView(200000, 0, [false, false]);
    AheadTrails();
    hide TwoInputsView, WantDemux, WantFilter, ViewOk, IsTrailing, Eligible;
    OtherNotDemanded(v, 0, 1);
    EligibleMarks(g, v, 0, demux, filters, 0, 1, Node(Demux, 1, 0));
    assert AnyEligible(v, 0);
  }

  lemma EligibleMarks(g: Graph, v: View, dts: int, demux: seq<bool>, filters: seq<bool>, i: nat, j: nat, n: Node)
    requires Decided(g, v, dts, demux, filters) && Eligible(v, dts, i, j)
    requires i < |g.mux| && j < |g.mux[i]| && g.mux[i][j] == n && n.ty == Demux && n.idx < |g.demux|
    ensures !demux[n.idx]
  {
    ReachRefl(g, v.best, Up(n));
    assert IsRoot(g, v, dts, Up(n)) && Demanded(g, v, dts, Up(n)) && HitsDemux(Up(n), n.idx);
    assert WantDemux(g, v, dts, n.idx);
  }

  /**
   The transcoded stream trails far behind while its encoder drains: only its input, which has
   exited, is let through, and the other one waits. No task is let through until the encoder is done.
   */
  lemma DrainingHoldsTheOther(demux: seq<bool>, filters: seq<bool>)
    requires Decided(TwoInputs(), TwoInputsView(0, 5000000, [true, false]), 0, demux, filters)
    ensures var v := TwoInputsView(0, 5000000, [true, false]);
      && ViewOk(TwoInputs(), v) && IsTrailing(v, false, 0) && SomeDts(v, false)
      && |demux| == 2 && demux[1] && !TaskRuns(TwoInputs(), v, demux, filters)
  {
    var g, v := TwoInputs(), TwoInputsView(0, 5000000, [true, false]);
    TwoInputsViewOk(0, 5000000, [true, false]);
    hide TwoInputsView, WantDemux, WantFilter, ViewOk;
    assert Counted(v, false, 0, 0) && Counted(v, false, 0, 1);
    assert Eligible(v, 0, 0, 0);
    OtherNotDemanded(v, 0, 0);
  }

  lemma FirstFalse(s: seq<bool>) returns (k: nat)
    requires exists i :: 0 <= i < |s| && !s[i]
    ensures k < |s| && !s[k] && forall i :: 0 <= i < k ==> s[i]
  {
    k := 0;
    while s[k]
      invariant k < |s| && forall i :: 0 <= i < k ==> s[i]
      decreases |s| - k
    {
      k := k + 1;
      assert exists i :: 0 <= i < |s| && !s[i];
    }
  }
}
