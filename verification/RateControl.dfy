/**
 Rate control: which demuxers and source-only filtergraphs may run.  Everything here
 happens under the scheduler's one lock, recomputed from scratch after each change.
 */
module RateControl {
  import opened Topology
  import opened Closure
  import opened Decision
  import opened Timestamps
  import opened Tables
  import opened QueueChokes
  import opened Demand

  class Scheduler {
    const g: Graph

    // waiters of demuxers and filtergraphs: the state tasks see, and the two fields
    // private to an update; true means choked
    var demuxChoked: seq<bool>
    var demuxPrev: seq<bool>
    var demuxNext: seq<bool>
    var filterChoked: seq<bool>
    var filterPrev: seq<bool>
    var filterNext: seq<bool>

    var queues: Queues
    var view: View

    var terminate: bool
    var trailing: int

    // positions explored by the unchoking functions in the current update
    ghost var visited: set<Pos>

    constructor (graph: Graph, removed: seq<bool>)
      requires Ready(graph) && RemovedOk(graph, removed)
      ensures g == graph && Ready(g) && Shape() && QueuesFollow(g, demuxChoked, queues)
      ensures view == InitialView(g, removed) && !terminate
      ensures forall i, j :: 0 <= i < |g.mux| && 0 <= j < |g.mux[i]| ==> view.lastDts[i][j] == NOPTS && !view.sourceFinished[i][j]
      ensures forall f, j :: 0 <= f < |g.filters| && 0 <= j < |g.filters[f].inputs| ==>
        !view.sendFinished[f][j] && !view.receiveFinished[f][j]
      ensures forall f :: 0 <= f < |g.filters| ==> view.best[f] == 0 && view.filterExited[f] == removed[f]
      ensures forall d :: 0 <= d < |g.demux| ==> !view.demuxExited[d]
      ensures (forall d :: 0 <= d < |g.demux| ==> !demuxChoked[d]) && (forall f :: 0 <= f < |g.filters| ==> !filterChoked[f])
    {
      g := graph;
      view := InitialView(graph, removed);
      demuxChoked := seq(|graph.demux|, _ => false);
      filterChoked := seq(|graph.filters|, _ => false);
      demuxPrev, demuxNext, filterPrev, filterNext := [], [], [], [];
      queues := Queues(seq(|graph.dec|, _ => false), seq(|graph.dec|, _ => false), seq(|graph.dec|, _ => false),
                       seq(|graph.enc|, _ => false), seq(|graph.filters|, _ => false));
      terminate, trailing, visited := false, 0, {};
    }

    ghost predicate Shape()
      reads this
    {
      && ViewOk(g, view) && QueuesOk(g, queues)
      && |demuxChoked| == |g.demux| && |filterChoked| == |g.filters|
    }

    /** What holds whenever the schedule lock is free. */
    ghost predicate Valid()
      reads this
    {
      && Ready(g) && Shape()
      && (!terminate ==> QueuesFollow(g, demuxChoked, queues) && Settled())
    }

    /** The waiters show the decision for what has been reported. */
    ghost predicate Settled()
      reads this
    {
      IsTrailing(view, false, trailing) && Decided(g, view, trailing, demuxChoked, filterChoked)
    }

    ghost predicate Marking()
      reads this
    {
      && |demuxNext| == |g.demux| && |filterNext| == |g.filters|
      && MarksOk(g, view.best, demuxNext, filterNext, visited)
    }

    ghost function ChokedDemuxers(): set<nat>
      reads this
    {
      set d: nat | d < |demuxNext| && demuxNext[d]
    }

    /** Unchokes whatever filtergraphs could block the sink `dst`. */
    method UnchokeDownstream(dst: Node)
      requires Ready(g) && BestOk(g, view.best) && Marking() && SinkOk(g, dst)
      modifies this`demuxNext, this`filterNext, this`visited
      ensures Marking() && ChokedDemuxers() <= old(ChokedDemuxers())
      ensures Down(dst) in visited && Explored(g, view.best, old(visited), visited, {Down(dst)})
      decreases ChokedDemuxers(), 1, (if dst.ty == Dec || dst.ty == Enc then (SinkGrounded(g, dst); Room(g, dst)) else 0)
    {
      hide Wired, ChainsEnd, Acyclic, Explored, ReachFrom, Room, HasGround, MarksOk, SameSource, SourceOk;
      ghost var p, v0 := Down(dst), visited;
      match dst.ty {
        case Dec =>
          var outputs := g.dec[dst.idx].outputs;
          DecOutputs(g, dst.idx);
          MarkSame(g, view.best, demuxNext, filterNext, visited, p);
          visited := visited + {p};
          ExploredNothing(g, view.best, visited, {p});
          for i := 0 to |outputs|
            invariant Marking() && ChokedDemuxers() <= old(ChokedDemuxers())
            invariant Explored(g, view.best, v0 + {p}, visited, {p})
            invariant forall k :: 0 <= k < i ==> Down(outputs[k][0]) in visited
          {
            RoomShrinks(g, dst, Node(Dec, dst.idx, i), outputs[i][0]);
            ghost var v1 := visited;
            UnchokeDownstream(outputs[i][0]);
            ReachChild(g, view.best, p, Down(outputs[i][0]));
            ExploredLift(g, view.best, v1, visited, Down(outputs[i][0]), {p});
            ExploredThen(g, view.best, v0 + {p}, v1, visited, {p});
          }
          ExploredWrap(g, view.best, v0, visited, p);
        case Enc =>
          var outputs := g.enc[dst.idx].dst;
          EncOutputs(g, dst.idx);
          MarkSame(g, view.best, demuxNext, filterNext, visited, p);
          visited := visited + {p};
          ExploredNothing(g, view.best, visited, {p});
          for i := 0 to |outputs|
            invariant Marking() && ChokedDemuxers() <= old(ChokedDemuxers())
            invariant Explored(g, view.best, v0 + {p}, visited, {p})
            invariant forall k :: 0 <= k < i ==> Down(outputs[k]) in visited
          {
            RoomShrinks(g, dst, Node(Enc, dst.idx, 0), outputs[i]);
            ghost var v1 := visited;
            UnchokeDownstream(outputs[i]);
            ReachChild(g, view.best, p, Down(outputs[i]));
            ExploredLift(g, view.best, v1, visited, Down(outputs[i]), {p});
            ExploredThen(g, view.best, v0 + {p}, v1, visited, {p});
          }
          ExploredWrap(g, view.best, v0, visited, p);
        case Mux =>
          MarkSame(g, view.best, demuxNext, filterNext, visited, p);
          visited := visited + {p};
          ExploredLeaf(g, view.best, v0, p);
        case FilterIn =>
          visited := visited + {p};
          if view.best[dst.idx] == |g.filters[dst.idx].inputs| {
            MarkFilter(g, view.best, demuxNext, filterNext, v0, p);
            filterNext := filterNext[dst.idx := false];
            ExploredLeaf(g, view.best, v0, p);
          } else {
            MarkSame(g, view.best, demuxNext, filterNext, v0, p);
            var src := g.filters[dst.idx].inputs[view.best[dst.idx]];
            SinkFed(g, Node(FilterIn, dst.idx, view.best[dst.idx]));
            UnchokeForStream(src);
            ReachChild(g, view.best, p, Up(src));
            ExploredLift(g, view.best, v0 + {p}, visited, Up(src), {p});
            ExploredWrap(g, view.best, v0, visited, p);
          }
        case _ =>
          assert false;
      }
    }

    /** The source is a demuxer: unchoke it and everything that could block one of its streams. */
    method UnchokeDemux(src: Node)
      requires Ready(g) && BestOk(g, view.best) && Marking() && SourceOk(g, src) && src.ty == Demux
      modifies this`demuxNext, this`filterNext, this`visited
      ensures Marking() && ChokedDemuxers() <= old(ChokedDemuxers())
      ensures Up(src) in visited && Explored(g, view.best, old(visited), visited, {Up(src)})
      decreases ChokedDemuxers(), 0, 0
    {
      hide Wired, ChainsEnd, Acyclic, Explored, ReachFrom, HasGround, MarksOk, SameSource;
      ghost var p, v0 := Up(src), visited;
      visited := visited + {p};
      if !demuxNext[src.idx] {
        MarkSame(g, view.best, demuxNext, filterNext, v0, p);
        ExploredSeenDemux(g, view.best, v0, p);
        return;
      }
      MarkDemux(g, view.best, demuxNext, filterNext, v0, src);
      demuxNext := demuxNext[src.idx := false];
      assert src.idx in old(ChokedDemuxers()) - ChokedDemuxers();
      ExploredNothing(g, view.best, visited, {p});
      var streams := g.demux[src.idx];
      DemuxOutputs(g, src.idx);
      for i := 0 to |streams|
        invariant Marking() && ChokedDemuxers() < old(ChokedDemuxers())
        invariant Explored(g, view.best, v0 + {p}, visited, {p})
        invariant forall k :: 0 <= k < i ==> Down(streams[k][0]) in visited
      {
        ghost var v1 := visited;
        UnchokeDownstream(streams[i][0]);
        ReachChild(g, view.best, p, Down(streams[i][0]));
        ExploredLift(g, view.best, v1, visited, Down(streams[i][0]), {p});
        ExploredThen(g, view.best, v0 + {p}, v1, visited, {p});
      }
      ExploredWrap(g, view.best, v0, visited, p);
    }

    /** Unchokes the source that feeds `start`, and whatever could block it. */
    method UnchokeForStream(start: Node)
      requires Ready(g) && BestOk(g, view.best) && Marking() && SourceOk(g, start)
      modifies this`demuxNext, this`filterNext, this`visited
      ensures Marking() && ChokedDemuxers() <= old(ChokedDemuxers())
      ensures Up(start) in visited && Explored(g, view.best, old(visited), visited, {Up(start)})
      decreases ChokedDemuxers(), 0, 1
    {
      hide Wired, ChainsEnd, Acyclic, Explored, Climbed, ReachFrom, HasGround, Height, Depth, MarksOk, SameSource;
      ghost var v0 := visited;
      var src := start;
      SourceGrounded(g, start);
      ClimbBegin(g, view.best, v0, Up(start));
      while true
        invariant SourceOk(g, src) && HasGround(g, src)
        invariant Marking() && demuxNext == old(demuxNext)
        invariant Climbed(g, view.best, v0, visited, Up(start), Up(src))
        decreases Height(g, src), Depth(g, src)
      {
        ghost var p, v1 := Up(src), visited;
        match src.ty {
          case Demux =>
            UnchokeDemux(src);
            ClimbEnd(g, view.best, v0, v1, visited, Up(start), p);
            return;
          case Dec =>
            MarkSame(g, view.best, demuxNext, filterNext, v1, p);
            visited := visited + {p};
            HeightAbove(g, src);
            SinkFed(g, Node(Dec, src.idx, 0));
            src := g.dec[src.idx].src;
            ClimbStep(g, view.best, v0, v1, Up(start), p, Up(src));
          case Enc =>
            MarkSame(g, view.best, demuxNext, filterNext, v1, p);
            visited := visited + {p};
            HeightAbove(g, src);
            SinkFed(g, Node(Enc, src.idx, 0));
            src := g.enc[src.idx].src;
            ClimbStep(g, view.best, v0, v1, Up(start), p, Up(src));
          case FilterOut =>
            visited := visited + {p};
            if view.best[src.idx] == |g.filters[src.idx].inputs| {
              MarkFilter(g, view.best, demuxNext, filterNext, v1, p);
              filterNext := filterNext[src.idx := false];
              ExploredLeaf(g, view.best, v1, p);
              ClimbEnd(g, view.best, v0, v1, visited, Up(start), p);
              return;
            }
            MarkSame(g, view.best, demuxNext, filterNext, v1, p);
            HeightInput(g, src, view.best[src.idx]);
            SinkFed(g, Node(FilterIn, src.idx, view.best[src.idx]));
            src := g.filters[src.idx].inputs[view.best[src.idx]];
            ClimbStep(g, view.best, v0, v1, Up(start), p, Up(src));
          case _ =>
            assert false;
        }
      }
    }

    // ---------------------------------------------------------------- the update

    /** The least last timestamp of the streams counted. */
    method TrailingDts(countFinished: bool) returns (dts: int)
      requires ViewOk(g, view)
      ensures IsTrailing(view, countFinished, dts)
    {
      var minDts := INT64_MAX;
      for i := 0 to |view.lastDts|
        invariant forall k: nat, j: nat :: k < i && Counted(view, countFinished, k, j) ==>
          view.lastDts[k][j] != NOPTS && minDts <= view.lastDts[k][j]
        invariant minDts == INT64_MAX ||
          (minDts < INT64_MAX && exists k: nat, j: nat :: Counted(view, countFinished, k, j) && view.lastDts[k][j] == minDts)
      {
        for j := 0 to |view.lastDts[i]|
          invariant forall k: nat, l: nat :: (k < i || (k == i && l < j)) && Counted(view, countFinished, k, l) ==>
            view.lastDts[k][l] != NOPTS && minDts <= view.lastDts[k][l]
          invariant minDts == INT64_MAX ||
            (minDts < INT64_MAX && exists k: nat, l: nat :: Counted(view, countFinished, k, l) && view.lastDts[k][l] == minDts)
        {
          if view.sourceFinished[i][j] && !countFinished {
            continue;
          }
          assert Counted(view, countFinished, i, j);
          if view.lastDts[i][j] == NOPTS {
            return NOPTS;
          }
          if view.lastDts[i][j] < minDts {
            minDts := view.lastDts[i][j];
          }
        }
      }
      return if minDts == INT64_MAX then NOPTS else minDts;
    }

    /** Unchokes the sources of the eligible output streams. */
    method UnchokeEligible(dts: int) returns (haveUnchoked: bool, ghost roots: set<Pos>)
      requires Ready(g) && ViewOk(g, view) && Marking() && visited == {}
      modifies this`demuxNext, this`filterNext, this`visited
      ensures Marking() && Explored(g, view.best, {}, visited, roots) && roots <= visited
      ensures forall p :: p in roots ==> IsRoot(g, view, dts, p)
      ensures forall i: nat, j: nat :: Eligible(view, dts, i, j) && i < |g.mux| && j < |g.mux[i]| ==> Up(g.mux[i][j]) in roots
      ensures haveUnchoked <==> AnyEligible(view, dts)
    {
      hide Wired, ChainsEnd, Acyclic, Explored, MarksOk;
      haveUnchoked, roots := false, {};
      ExploredNothing(g, view.best, {}, {});
      for i := 0 to |view.lastDts|
        invariant Marking() && Explored(g, view.best, {}, visited, roots) && roots <= visited
        invariant forall p :: p in roots ==> IsRoot(g, view, dts, p)
        invariant forall k: nat, j: nat :: k < i && Eligible(view, dts, k, j) ==> Up(g.mux[k][j]) in roots
        invariant haveUnchoked <==> exists k: nat, j: nat :: k < i && Eligible(view, dts, k, j)
      {
        for j := 0 to |view.lastDts[i]|
          invariant Marking() && Explored(g, view.best, {}, visited, roots) && roots <= visited
          invariant forall p :: p in roots ==> IsRoot(g, view, dts, p)
          invariant forall k: nat, l: nat :: (k < i || (k == i && l < j)) && Eligible(view, dts, k, l) ==>
            Up(g.mux[k][l]) in roots
          invariant haveUnchoked <==> exists k: nat, l: nat :: (k < i || (k == i && l < j)) && Eligible(view, dts, k, l)
        {
          if view.sourceFinished[i][j] {
            continue;
          }
          if dts == NOPTS && view.lastDts[i][j] != NOPTS {
            continue;
          }
          if dts != NOPTS && view.lastDts[i][j] - dts >= SCHEDULE_TOLERANCE {
            continue;
          }
          assert Eligible(view, dts, i, j);
          SinkFed(g, Node(Mux, i, j));
          ghost var v1 := visited;
          UnchokeForStream(g.mux[i][j]);
          ExploreRoot(g, view.best, v1, visited, Up(g.mux[i][j]), roots);
          roots := roots + {Up(g.mux[i][j])};
          haveUnchoked := true;
        }
      }
    }

    /** Unchokes the sources feeding closed filter inputs, so that they see the end. */
    method UnchokeClosedInputs(dts: int, ghost roots0: set<Pos>) returns (ghost roots: set<Pos>)
      requires Ready(g) && ViewOk(g, view) && Marking()
      requires Explored(g, view.best, {}, visited, roots0) && roots0 <= visited
      requires forall p :: p in roots0 ==> IsRoot(g, view, dts, p)
      modifies this`demuxNext, this`filterNext, this`visited
      ensures Marking() && Explored(g, view.best, {}, visited, roots) && roots0 <= roots <= visited
      ensures forall p :: p in roots ==> IsRoot(g, view, dts, p)
      ensures forall f: nat, j: nat :: ClosedInput(g, view, f, j) ==> Up(g.filters[f].inputs[j]) in roots
    {
      hide Wired, ChainsEnd, Acyclic, Explored, MarksOk;
      roots := roots0;
      for i := 0 to |g.filters|
        invariant Marking() && Explored(g, view.best, {}, visited, roots) && roots0 <= roots <= visited
        invariant forall p :: p in roots ==> IsRoot(g, view, dts, p)
        invariant forall f: nat, j: nat :: f < i && ClosedInput(g, view, f, j) ==> Up(g.filters[f].inputs[j]) in roots
      {
        for j := 0 to |g.filters[i].inputs|
          invariant Marking() && Explored(g, view.best, {}, visited, roots) && roots0 <= roots <= visited
          invariant forall p :: p in roots ==> IsRoot(g, view, dts, p)
          invariant forall f: nat, k: nat :: (f < i || (f == i && k < j)) && ClosedInput(g, view, f, k) ==>
            Up(g.filters[f].inputs[k]) in roots
        {
          if view.receiveFinished[i][j] && !view.sendFinished[i][j] {
            assert ClosedInput(g, view, i, j);
            SinkFed(g, Node(FilterIn, i, j));
            ghost var v1 := visited;
            UnchokeForStream(g.filters[i].inputs[j]);
            ExploreRoot(g, view.best, v1, visited, Up(g.filters[i].inputs[j]), roots);
            roots := roots + {Up(g.filters[i].inputs[j])};
          }
        }
      }
    }

    /** Makes sure that at least one source still running is let through. */
    method UnchokeLastResort(dts: int, haveUnchoked: bool)
      requires ViewOk(g, view) && Wanted(g, view, dts, demuxNext, filterNext)
      requires haveUnchoked <==> AnyEligible(view, dts)
      modifies this`demuxNext, this`filterNext
      ensures Decided(g, view, dts, demuxNext, filterNext)
      ensures |demuxNext| == |g.demux| && |filterNext| == |g.filters|
    {
      hide AnyEligible, WantDemux, WantFilter;
      if haveUnchoked {
        return;
      }
      for i := 0 to |g.demux|
        invariant forall e :: 0 <= e < i ==> view.demuxExited[e]
        invariant demuxNext == old(demuxNext) && filterNext == old(filterNext)
      {
        if !view.demuxExited[i] {
          demuxNext := demuxNext[i := false];
          return;
        }
      }
      for i := 0 to |g.filters|
        invariant forall e :: 0 <= e < i ==> view.filterExited[e]
        invariant demuxNext == old(demuxNext) && filterNext == old(filterNext)
      {
        if !view.filterExited[i] {
          filterNext := filterNext[i := false];
          return;
        }
      }
    }

    /** Freezes or releases the queues right behind a demuxer. */
    method ChokeDemux(d: nat, choked: bool)
      requires d < |g.demux| && QueuesOk(g, queues)
      requires forall s :: 0 <= s < |g.demux[d]| ==> |g.demux[d][s]| > 0 && SinkOk(g, g.demux[d][s][0])
      modifies this`queues
      ensures Frozen(g, g.demux[d], choked, old(queues), queues)
    {
      var streams := g.demux[d];
      FrozenNone(g, streams, choked, queues);
      for i := 0 to |streams|
        invariant Frozen(g, streams[..i], choked, old(queues), queues)
      {
        var dst := streams[i][0];
        ghost var before := queues;
        match dst.ty {
          case Dec =>
            queues := queues.(dec := queues.dec[dst.idx := choked], released := queues.released[dst.idx := false]);
          case Enc => queues := queues.(enc := queues.enc[dst.idx := choked]);
          case FilterIn =>
            if |g.filters[dst.idx].inputs| == 1 {
              queues := queues.(filters := queues.filters[dst.idx := choked]);
            }
          case _ =>
        }
        FrozenOneMore(g, streams, i, choked, old(queues), before, queues);
      }
      assert streams[..|streams|] == streams;
    }

    /** Tells every waiter whose state changed, and the queues behind the demuxers among them. */
    method Announce()
      requires Wired(g) && |demuxNext| == |g.demux| && |filterNext| == |g.filters|
      requires demuxPrev == demuxChoked && filterPrev == filterChoked && |filterChoked| == |g.filters|
      requires QueuesFollow(g, demuxChoked, queues)
      modifies this`demuxChoked, this`filterChoked, this`queues
      ensures demuxChoked == demuxNext && filterChoked == filterNext
      ensures QueuesFollow(g, demuxChoked, queues)
      ensures queues.enc == old(queues.enc) && queues.filters == old(queues.filters)
    {
      hide Wired, Frozen, FeedsFirst;
      for i := 0 to |g.demux|
        invariant filterChoked == old(filterChoked) && |demuxChoked| == |g.demux|
        invariant forall d :: 0 <= d < i ==> demuxChoked[d] == demuxNext[d]
        invariant forall d :: i <= d < |g.demux| ==> demuxChoked[d] == demuxPrev[d]
        invariant QueuesFollow(g, demuxChoked, queues)
        invariant queues.enc == old(queues.enc) && queues.filters == old(queues.filters)
      {
        if demuxPrev[i] != demuxNext[i] {
          ghost var before, queuesBefore := demuxChoked, queues;
          demuxChoked := demuxChoked[i := demuxNext[i]];
          DemuxOutputs(g, i);
          ChokeDemux(i, demuxNext[i]);
          FollowChange(g, i, demuxNext[i], before, queuesBefore, queues);
        }
      }
      for i := 0 to |g.filters|
        invariant demuxChoked == demuxNext && QueuesFollow(g, demuxChoked, queues)
        invariant queues.enc == old(queues.enc) && queues.filters == old(queues.filters)
        invariant |filterChoked| == |g.filters|
        invariant forall f :: 0 <= f < i ==> filterChoked[f] == filterNext[f]
        invariant forall f :: i <= f < |g.filters| ==> filterChoked[f] == filterPrev[f]
      {
        if filterPrev[i] != filterNext[i] {
          filterChoked := filterChoked[i := filterNext[i]];
        }
      }
    }

    /** Works out the next state of every waiter. */
    method Decide(dts: int)
      requires Ready(g) && ViewOk(g, view)
      modifies this`demuxNext, this`filterNext, this`visited
      ensures Decided(g, view, dts, demuxNext, filterNext)
      ensures |demuxNext| == |g.demux| && |filterNext| == |g.filters|
    {
      hide Wired, ChainsEnd, Acyclic, Explored, MarksOk, Wanted, Decided, IsRoot, AnyEligible;
      demuxNext := seq(|g.demux|, _ => true);
      filterNext := seq(|g.filters|, _ => true);
      visited := {};
      MarkNothing(g, view.best, demuxNext, filterNext);

      var haveUnchoked, eligible := UnchokeEligible(dts);
      ghost var roots := UnchokeClosedInputs(dts, eligible);
      AllRoots(g, view, dts, roots);
      ExploredIsWanted(g, view, dts, roots, visited, demuxNext, filterNext);
      UnchokeLastResort(dts, haveUnchoked);
    }

    /** Recomputes the decision from what has been reported, and announces it. */
    method ScheduleUpdate()
      requires Ready(g) && Shape() && (!terminate ==> QueuesFollow(g, demuxChoked, queues))
      modifies this`trailing, this`demuxPrev, this`demuxNext, this`filterPrev, this`filterNext, this`visited
      modifies this`demuxChoked, this`filterChoked, this`queues
      ensures Valid() && queues.enc == old(queues.enc) && queues.filters == old(queues.filters)
      ensures terminate ==> demuxChoked == old(demuxChoked) && filterChoked == old(filterChoked) && queues == old(queues)
      ensures !terminate ==> demuxChoked == demuxNext && filterChoked == filterNext
    {
      hide Wired, ChainsEnd, Acyclic, Decided, IsTrailing, ViewOk;
      if terminate {
        return;
      }
      var dts := TrailingDts(false);
      trailing := dts;
      demuxPrev, filterPrev := demuxChoked, filterChoked;
      Decide(dts);
      Announce();
    }

    // ---------------------------------------------------------------- the reports

    /** All tasks have been started; the first decision is made. */
    method Start()
      requires Ready(g) && Shape() && QueuesFollow(g, demuxChoked, queues)
      modifies this
      ensures Valid() && view == old(view) && terminate == old(terminate)
    {
      ScheduleUpdate();
    }

    /** A packet ending at `dts` has gone to a muxed stream. */
    method StreamReached(i: nat, j: nat, dts: int)
      requires Valid() && i < |g.mux| && j < |g.mux[i]|
      modifies this
      ensures Valid() && terminate == old(terminate)
      ensures view == old(view).(lastDts := Set(old(view).lastDts, i, j, dts))
    {
      hide Ready, Decided, IsTrailing, QueuesFollow;
      view := view.(lastDts := Set(view.lastDts, i, j, dts));
      ScheduleUpdate();
    }

    /** A muxed stream takes no more input: its source sent the end, or the muxer closed it. */
    method StreamFinished(i: nat, j: nat)
      requires Valid() && i < |g.mux| && j < |g.mux[i]|
      modifies this
      ensures Valid() && terminate == old(terminate)
      ensures view == old(view).(sourceFinished := Set(old(view).sourceFinished, i, j, true))
    {
      hide Ready, Decided, IsTrailing, QueuesFollow;
      view := view.(sourceFinished := Set(view.sourceFinished, i, j, true));
      ScheduleUpdate();
    }

    /** The muxer task is done. */
    method MuxDone(i: nat)
      requires Valid() && i < |g.mux|
      modifies this
      ensures Valid() && terminate == old(terminate)
      ensures view == old(view).(sourceFinished := view.sourceFinished)
      ensures forall k, j :: 0 <= k < |g.mux| && 0 <= j < |g.mux[k]| ==>
        view.sourceFinished[k][j] == (k == i || old(view).sourceFinished[k][j])
    {
      hide Ready, Decided, IsTrailing, QueuesFollow;
      for j := 0 to |g.mux[i]|
        invariant Ready(g) && Shape() && (!terminate ==> QueuesFollow(g, demuxChoked, queues))
        invariant terminate == old(terminate)
        invariant view == old(view).(sourceFinished := view.sourceFinished)
        invariant forall k, l :: 0 <= k < |g.mux| && 0 <= l < |g.mux[k]| ==>
          view.sourceFinished[k][l] == ((k == i && l < j) || old(view).sourceFinished[k][l])
      {
        view := view.(sourceFinished := Set(view.sourceFinished, i, j, true));
      }
      ScheduleUpdate();
    }

    /** The demuxer task is done. */
    method DemuxDone(d: nat)
      requires Valid() && d < |g.demux|
      modifies this
      ensures Valid() && terminate == old(terminate)
      ensures view == old(view).(demuxExited := old(view).demuxExited[d := true])
    {
      hide Ready, Decided, IsTrailing, QueuesFollow;
      view := view.(demuxExited := view.demuxExited[d := true]);
      ScheduleUpdate();
    }

    /** The filtergraph task is done. */
    method FilterDone(f: nat)
      requires Valid() && f < |g.filters|
      modifies this
      ensures Valid() && terminate == old(terminate)
      ensures view == old(view).(filterExited := old(view).filterExited[f := true])
    {
      hide Ready, Decided, IsTrailing, QueuesFollow;
      view := view.(filterExited := view.filterExited[f := true]);
      ScheduleUpdate();
    }

    /** A filter input's source has sent the end; only the first time counts. */
    method FilterInputSent(f: nat, j: nat)
      requires Valid() && f < |g.filters| && j < |g.filters[f].inputs|
      modifies this
      ensures Valid() && terminate == old(terminate)
      ensures view == old(view).(sendFinished := Set(old(view).sendFinished, f, j, true))
    {
      hide Ready, Decided, IsTrailing, QueuesFollow;
      if !view.sendFinished[f][j] {
        view := view.(sendFinished := Set(view.sendFinished, f, j, true));
        ScheduleUpdate();
      } else {
        SetSame(view.sendFinished, f, j);
      }
    }

    /** A filtergraph takes no more from one of its inputs; only the first time counts. */
    method FilterInputClosed(f: nat, j: nat)
      requires Valid() && f < |g.filters| && j < |g.filters[f].inputs|
      modifies this
      ensures Valid() && terminate == old(terminate)
      ensures view == old(view).(receiveFinished := Set(old(view).receiveFinished, f, j, true))
    {
      hide Ready, Decided, IsTrailing, QueuesFollow;
      if !view.receiveFinished[f][j] {
        view := view.(receiveFinished := Set(view.receiveFinished, f, j, true));
        ScheduleUpdate();
      } else {
        SetSame(view.receiveFinished, f, j);
      }
    }

    /** A filtergraph asks for the input it most wants, or for none. */
    method FilterReceive(f: nat, input: nat)
      requires Valid() && f < |g.filters| && input <= |g.filters[f].inputs|
      modifies this
      ensures Valid() && terminate == old(terminate)
      ensures view == old(view).(best := old(view).best[f := input])
    {
      hide Ready, Decided, IsTrailing, QueuesFollow;
      if input != view.best[f] {
        view := view.(best := view.best[f := input]);
        ScheduleUpdate();
      } else {
        assert view.best[f := input] == view.best;
      }
    }

    /** A filtergraph wants no input while it is being configured. */
    method FilterChokeInputs(f: nat)
      requires Valid() && f < |g.filters|
      modifies this
      ensures Valid() && terminate == old(terminate)
      ensures view == old(view).(best := old(view).best[f := |g.filters[f].inputs|])
    {
      hide Ready, Decided, IsTrailing, QueuesFollow;
      view := view.(best := view.best[f := |g.filters[f].inputs|]);
      ScheduleUpdate();
    }

    /** Termination has been requested: from now on no update changes a waiter. */
    method RequestStop()
      requires Valid()
      modifies this`terminate
      ensures Valid() && terminate
    {
      terminate := true;
    }

    /** A decoder's source finishes its queue; this needs no schedule lock. */
    method FinishDecQueue(k: nat)
      requires Valid() && k < |g.dec|
      modifies this`queues
      ensures Valid()
      ensures queues == Finished(old(queues), k)
    {
      hide Ready, Decided, IsTrailing;
      if !terminate {
        FollowFinish(g, demuxChoked, queues, k);
      }
      queues := Finished(queues, k);
    }
  }

  /**
   At every release of the lock before termination: while an output is unfinished (and short of
   the largest timestamp), the source that some eligible output is fed from is let through, not
   merely decided to be. It has a task, which may have exited already. A task that has not exited is
   let through exactly when one is demanded, or no output is eligible and the last resort finds one.
   */
  lemma NeverStuck(s: Scheduler)
    requires s.Valid() && !s.terminate
    ensures SomeDts(s.view, false) ==>
      exists i: nat, j: nat ::
        Eligible(s.view, s.trailing, i, j) && Served(s.g, s.view.best, s.demuxChoked, s.filterChoked, i, j)
    ensures !SomeDts(s.view, false) && (exists d :: 0 <= d < |s.g.demux| && !s.view.demuxExited[d]) ==>
      exists d :: 0 <= d < |s.g.demux| && !s.view.demuxExited[d] && !s.demuxChoked[d]
    ensures !SomeDts(s.view, false) && (forall d :: 0 <= d < |s.g.demux| ==> s.view.demuxExited[d])
            && (exists f :: 0 <= f < |s.g.filters| && !s.view.filterExited[f]) ==>
      exists f :: 0 <= f < |s.g.filters| && !s.view.filterExited[f] && !s.filterChoked[f]
    ensures TaskRuns(s.g, s.view, s.demuxChoked, s.filterChoked) <==>
      TaskDemanded(s.g, s.view, s.trailing) || (!SomeDts(s.view, false) && LastResortHelps(s.g, s.view))
  {
    Progress(s.g, s.view, s.trailing, s.demuxChoked, s.filterChoked);
  }

  /** At every release of the lock before termination: exactly the sources waited for, and the last resort, run. */
  lemma ReleasedAreWaited(s: Scheduler, r: Source)
    requires s.Valid() && !s.terminate && Exists(s.g, r)
    ensures Released(s.demuxChoked, s.filterChoked, r) <==>
      Waited(s.g, s.view, s.trailing, r) || LastResort(s.view, s.trailing, r)
  {
    hide Ready, Decided, ViewOk;
    ReleasedIff(s.g, s.view, s.trailing, s.demuxChoked, s.filterChoked, r);
  }

  lemma TwoInputsFollow(demux: seq<bool>, q: Queues)
    requires demux == [true, false] && q == Queues([true], [false], [false], [false], [])
    ensures var g := TwoInputs(); QueuesFollow(g, demux, q) && FeedsFirst(g.demux[0], Dec, 0)
  {
    assert TwoInputs().demux[0][0][0] == Node(Dec, 0, 0);
  }

  /**
   An input that has run ahead is choked, and the queue behind it with it. If its task finishes that
   queue now, the queue is released while the input stays choked.
   */
  lemma FinishedQueueDiffers(demux: seq<bool>, filters: seq<bool>) returns (q: Queues)
    requires Decided(TwoInputs(), TwoInputsView(200000, 0, [false, false]), 0, demux, filters)
    ensures var g := TwoInputs();
      && Ready(g) && QueuesFollow(g, demux, q) && FeedsFirst(g.demux[0], Dec, 0)
      && !q.decSent[0] && demux[0] && q.dec[0] && !Finished(q, 0).dec[0]
      && QueuesFollow(g, demux, Finished(q, 0))
  {
    TwoInputsReady();
    AheadIsChoked(demux, filters);
    hide Ready, Decided, QueuesFollow;
    q := Queues([true], [false], [false], [false], []);
    TwoInputsFollow(demux, q);
    FollowFinish(TwoInputs(), demux, q, 0);
  }

  lemma MarkNothing(g: Graph, best: seq<nat>, demux: seq<bool>, filters: seq<bool>)
    requires |demux| == |g.demux| && |filters| == |g.filters|
    requires (forall d :: 0 <= d < |demux| ==> demux[d]) && (forall f :: 0 <= f < |filters| ==> filters[f])
    ensures MarksOk(g, best, demux, filters, {})
  {
  }

  lemma AllRoots(g: Graph, v: View, dts: int, roots: set<Pos>)
    requires forall p :: p in roots ==> IsRoot(g, v, dts, p)
    requires forall i: nat, j: nat :: Eligible(v, dts, i, j) && i < |g.mux| && j < |g.mux[i]| ==> Up(g.mux[i][j]) in roots
    requires forall f: nat, j: nat :: ClosedInput(g, v, f, j) ==> Up(g.filters[f].inputs[j]) in roots
    ensures forall p :: p in roots <==> IsRoot(g, v, dts, p)
  {
  }
}
