/**
 What the two mutually recursive unchoking functions explore: positions in the
 transcoding graph and the edges they follow.  `Up(n)` asks for the source feeding
 `n`; `Down(n)` looks for filtergraphs that could block the sink `n`.
 */
module Closure {
  import opened Topology

  datatype Pos = Up(n: Node) | Down(n: Node)

  /** The input each filtergraph wants next; the number of inputs when it wants none. */
  ghost predicate BestOk(g: Graph, best: seq<nat>) {
    |best| == |g.filters| && forall f :: 0 <= f < |best| ==> best[f] <= |g.filters[f].inputs|
  }

  predicate WantsInput(g: Graph, best: seq<nat>, f: nat) {
    f < |g.filters| && f < |best| && best[f] < |g.filters[f].inputs|
  }

  /** A demuxed stream or decoder output leads to its first destination only. */
  ghost predicate FirstOf(outputs: seq<seq<Node>>, q: Pos) {
    exists s :: 0 <= s < |outputs| && |outputs[s]| > 0 && q == Down(outputs[s][0])
  }

  ghost predicate Step(g: Graph, best: seq<nat>, p: Pos, q: Pos) {
    var n := p.n;
    match (p, n.ty)
    case (Up(_), Demux) => n.idx < |g.demux| && FirstOf(g.demux[n.idx], q)
    case (Up(_), Dec) => n.idx < |g.dec| && q == Up(g.dec[n.idx].src)
    case (Up(_), Enc) => n.idx < |g.enc| && q == Up(g.enc[n.idx].src)
    case (Up(_), FilterOut) => WantsInput(g, best, n.idx) && q == Up(g.filters[n.idx].inputs[best[n.idx]])
    case (Down(_), Dec) => n.idx < |g.dec| && FirstOf(g.dec[n.idx].outputs, q)
    case (Down(_), Enc) => n.idx < |g.enc| && exists k :: 0 <= k < |g.enc[n.idx].dst| && q == Down(g.enc[n.idx].dst[k])
    case (Down(_), FilterIn) => WantsInput(g, best, n.idx) && q == Up(g.filters[n.idx].inputs[best[n.idx]])
    case _ => false
  }

  ghost predicate ReachIn(g: Graph, best: seq<nat>, p: Pos, q: Pos, n: nat)
    decreases n
  {
    if n == 0 then p == q else exists r :: Step(g, best, p, r) && ReachIn(g, best, r, q, n - 1)
  }

  ghost predicate Reach(g: Graph, best: seq<nat>, p: Pos, q: Pos) {
    exists n: nat :: ReachIn(g, best, p, q, n)
  }

  ghost predicate ReachFrom(g: Graph, best: seq<nat>, roots: set<Pos>, q: Pos) {
    exists p :: p in roots && Reach(g, best, p, q)
  }

  lemma ReachRefl(g: Graph, best: seq<nat>, p: Pos)
    ensures Reach(g, best, p, p)
  {
    assert ReachIn(g, best, p, p, 0);
  }

  lemma ReachStep(g: Graph, best: seq<nat>, p: Pos, r: Pos, q: Pos)
    requires Step(g, best, p, r) && Reach(g, best, r, q)
    ensures Reach(g, best, p, q)
  {
    var n: nat :| ReachIn(g, best, r, q, n);
    assert ReachIn(g, best, p, q, n + 1);
  }

  lemma {:induction false} ReachInTrans(g: Graph, best: seq<nat>, p: Pos, q: Pos, r: Pos, m: nat, n: nat)
    requires ReachIn(g, best, p, q, m) && ReachIn(g, best, q, r, n)
    ensures ReachIn(g, best, p, r, m + n)
    decreases m
  {
    if m > 0 {
      var s :| Step(g, best, p, s) && ReachIn(g, best, s, q, m - 1);
      ReachInTrans(g, best, s, q, r, m - 1, n);
    }
  }

  lemma ReachTrans(g: Graph, best: seq<nat>, p: Pos, q: Pos, r: Pos)
    requires Reach(g, best, p, q) && Reach(g, best, q, r)
    ensures Reach(g, best, p, r)
  {
    var m: nat :| ReachIn(g, best, p, q, m);
    var n: nat :| ReachIn(g, best, q, r, n);
    ReachInTrans(g, best, p, q, r, m, n);
  }

  // ---------------------------------------------------------------- what a position unchokes

  /** Reaching `p` unchokes demuxer `d`. */
  predicate HitsDemux(p: Pos, d: nat) {
    p.Up? && p.n.ty == Demux && p.n.idx == d
  }

  /** Reaching `p` unchokes filtergraph `f`, which wants to run on its own sources. */
  predicate HitsFilter(g: Graph, best: seq<nat>, p: Pos, f: nat) {
    && ((p.Up? && p.n.ty == FilterOut) || (p.Down? && p.n.ty == FilterIn))
    && p.n.idx == f && f < |g.filters| && f < |best| && best[f] == |g.filters[f].inputs|
  }

  predicate IsDemux(p: Pos) {
    p.Up? && p.n.ty == Demux
  }

  ghost predicate DemuxSeen(v: set<Pos>, d: nat) {
    exists p :: p in v && HitsDemux(p, d)
  }

  ghost predicate FilterSeen(g: Graph, best: seq<nat>, v: set<Pos>, f: nat) {
    exists p :: p in v && HitsFilter(g, best, p, f)
  }

  /** The choked marks record exactly the sources hit by the positions in `v`. */
  ghost predicate MarksOk(g: Graph, best: seq<nat>, demux: seq<bool>, filters: seq<bool>, v: set<Pos>) {
    && |demux| == |g.demux| && |filters| == |g.filters|
    && (forall d: nat :: d < |demux| ==> (!demux[d] <==> DemuxSeen(v, d)))
    && (forall f: nat :: f < |filters| ==> (!filters[f] <==> FilterSeen(g, best, v, f)))
  }

  lemma SeenMore(g: Graph, best: seq<nat>, v: set<Pos>, p: Pos)
    ensures forall d: nat :: DemuxSeen(v + {p}, d) <==> DemuxSeen(v, d) || HitsDemux(p, d)
    ensures forall f: nat :: FilterSeen(g, best, v + {p}, f) <==> FilterSeen(g, best, v, f) || HitsFilter(g, best, p, f)
  {
    forall d: nat ensures DemuxSeen(v + {p}, d) <==> DemuxSeen(v, d) || HitsDemux(p, d) {
      if HitsDemux(p, d) {
        assert p in v + {p};
      }
    }
    forall f: nat ensures FilterSeen(g, best, v + {p}, f) <==> FilterSeen(g, best, v, f) || HitsFilter(g, best, p, f) {
      if HitsFilter(g, best, p, f) {
        assert p in v + {p};
      }
    }
  }

  /** Exploring a position that hits no source, or whose source is marked already. */
  lemma MarkSame(g: Graph, best: seq<nat>, demux: seq<bool>, filters: seq<bool>, v: set<Pos>, p: Pos)
    requires MarksOk(g, best, demux, filters, v)
    requires forall d: nat :: d < |demux| && HitsDemux(p, d) ==> !demux[d]
    requires forall f: nat :: f < |filters| ==> !HitsFilter(g, best, p, f)
    ensures MarksOk(g, best, demux, filters, v + {p})
    ensures forall d: nat :: d < |demux| && HitsDemux(p, d) ==> DemuxSeen(v, d)
  {
    SeenMore(g, best, v, p);
  }

  lemma MarkDemux(g: Graph, best: seq<nat>, demux: seq<bool>, filters: seq<bool>, v: set<Pos>, n: Node)
    requires MarksOk(g, best, demux, filters, v) && n.ty == Demux && n.idx < |demux|
    ensures MarksOk(g, best, demux[n.idx := false], filters, v + {Up(n)})
  {
    SeenMore(g, best, v, Up(n));
  }

  lemma MarkFilter(g: Graph, best: seq<nat>, demux: seq<bool>, filters: seq<bool>, v: set<Pos>, p: Pos)
    requires MarksOk(g, best, demux, filters, v) && p.n.idx < |filters| && HitsFilter(g, best, p, p.n.idx)
    ensures MarksOk(g, best, demux, filters[p.n.idx := false], v + {p})
  {
    SeenMore(g, best, v, p);
  }

  // ---------------------------------------------------------------- exploration

  ghost predicate ClosedAt(g: Graph, best: seq<nat>, v: set<Pos>, p: Pos) {
    forall q :: Step(g, best, p, q) ==> q in v
  }

  /** `p` needs no further work, or belongs to a demuxer whose exploration began before `v0`. */
  ghost predicate SettledAt(g: Graph, best: seq<nat>, v0: set<Pos>, v: set<Pos>, p: Pos) {
    ClosedAt(g, best, v, p) || (IsDemux(p) && DemuxSeen(v0, p.n.idx))
  }

  /** Everything new in `v` is reachable from the roots and needs no further work. */
  ghost predicate Explored(g: Graph, best: seq<nat>, v0: set<Pos>, v: set<Pos>, roots: set<Pos>) {
    && v0 <= v
    && (forall q :: q in v - v0 ==> ReachFrom(g, best, roots, q))
    && (forall q :: q in v - v0 ==> SettledAt(g, best, v0, v, q))
  }

  lemma ExploredNothing(g: Graph, best: seq<nat>, v: set<Pos>, roots: set<Pos>)
    ensures Explored(g, best, v, v, roots)
  {
  }

  lemma ClosedGrows(g: Graph, best: seq<nat>, v: set<Pos>, w: set<Pos>, p: Pos)
    requires v <= w && ClosedAt(g, best, v, p)
    ensures ClosedAt(g, best, w, p)
  {
  }

  lemma SameDemuxClosed(g: Graph, best: seq<nat>, v: set<Pos>, p: Pos, q: Pos)
    requires IsDemux(p) && IsDemux(q) && p.n.idx == q.n.idx && ClosedAt(g, best, v, p)
    ensures ClosedAt(g, best, v, q)
  {
    forall r | Step(g, best, q, r) ensures r in v {
      assert Step(g, best, p, r);
    }
  }

  /** Two explorations, one after the other. */
  lemma ExploredThen(g: Graph, best: seq<nat>, v0: set<Pos>, v1: set<Pos>, v2: set<Pos>, roots: set<Pos>)
    requires Explored(g, best, v0, v1, roots) && Explored(g, best, v1, v2, roots)
    ensures Explored(g, best, v0, v2, roots)
  {
    forall q | q in v2 - v0 ensures SettledAt(g, best, v0, v2, q) {
      if q in v1 {
        assert q in v1 - v0 && SettledAt(g, best, v0, v1, q);
        if ClosedAt(g, best, v1, q) {
          ClosedGrows(g, best, v1, v2, q);
        }
      } else if !ClosedAt(g, best, v2, q) {
        assert q in v2 - v1 && SettledAt(g, best, v1, v2, q);
        var p :| p in v1 && HitsDemux(p, q.n.idx);
        if p !in v0 {
          assert p in v1 - v0 && SettledAt(g, best, v0, v1, p);
          if ClosedAt(g, best, v1, p) {
            ClosedGrows(g, best, v1, v2, p);
            SameDemuxClosed(g, best, v2, p, q);
          }
        }
      }
    }
  }

  /** An exploration from somewhere the roots reach is an exploration from the roots. */
  lemma ExploredLift(g: Graph, best: seq<nat>, v0: set<Pos>, v: set<Pos>, p: Pos, roots: set<Pos>)
    requires Explored(g, best, v0, v, {p}) && ReachFrom(g, best, roots, p)
    ensures Explored(g, best, v0, v, roots)
  {
    var r :| r in roots && Reach(g, best, r, p);
    forall q | q in v - v0 ensures ReachFrom(g, best, roots, q) {
      ReachTrans(g, best, r, p, q);
    }
  }

  lemma ReachChild(g: Graph, best: seq<nat>, p: Pos, q: Pos)
    requires Step(g, best, p, q)
    ensures ReachFrom(g, best, {p}, q)
  {
    ReachRefl(g, best, q);
    ReachStep(g, best, p, q, q);
  }

  /** Once every successor of `p` is in, `p` itself is explored. */
  lemma ExploredWrap(g: Graph, best: seq<nat>, v0: set<Pos>, v: set<Pos>, p: Pos)
    requires Explored(g, best, v0 + {p}, v, {p}) && ClosedAt(g, best, v, p)
    ensures Explored(g, best, v0, v, {p}) && p in v
  {
    ReachRefl(g, best, p);
    forall q | q in v - v0 ensures SettledAt(g, best, v0, v, q) {
      if q != p && !ClosedAt(g, best, v, q) {
        assert q in v - (v0 + {p}) && SettledAt(g, best, v0 + {p}, v, q);
        var r :| r in v0 + {p} && HitsDemux(r, q.n.idx);
        if r == p {
          SameDemuxClosed(g, best, v, p, q);
        }
      }
    }
  }

  lemma ExploredSeenDemux(g: Graph, best: seq<nat>, v0: set<Pos>, p: Pos)
    requires IsDemux(p) && DemuxSeen(v0, p.n.idx)
    ensures Explored(g, best, v0, v0 + {p}, {p})
  {
    ReachRefl(g, best, p);
  }

  lemma ExploredLeaf(g: Graph, best: seq<nat>, v0: set<Pos>, p: Pos)
    requires forall q :: !Step(g, best, p, q)
    ensures Explored(g, best, v0, v0 + {p}, {p})
  {
    ReachRefl(g, best, p);
  }

  /** The upward walk so far: every position passed has its one successor in, or is about to. */
  ghost predicate Climbed(g: Graph, best: seq<nat>, v0: set<Pos>, v: set<Pos>, start: Pos, cur: Pos) {
    && v0 <= v
    && start in v + {cur}
    && Reach(g, best, start, cur)
    && (forall q :: q in v - v0 ==> Reach(g, best, start, q))
    && (forall q :: q in v - v0 ==> ClosedAt(g, best, v + {cur}, q))
  }

  lemma ClimbBegin(g: Graph, best: seq<nat>, v0: set<Pos>, start: Pos)
    ensures Climbed(g, best, v0, v0, start, start)
  {
    ReachRefl(g, best, start);
  }

  lemma ClimbStep(g: Graph, best: seq<nat>, v0: set<Pos>, v: set<Pos>, start: Pos, cur: Pos, next: Pos)
    requires Climbed(g, best, v0, v, start, cur)
    requires Step(g, best, cur, next) && forall q :: Step(g, best, cur, q) ==> q == next
    ensures Climbed(g, best, v0, v + {cur}, start, next)
  {
    ReachRefl(g, best, next);
    ReachStep(g, best, cur, next, next);
    ReachTrans(g, best, start, cur, next);
    forall q | q in v + {cur} - v0 ensures ClosedAt(g, best, v + {cur} + {next}, q) {
      if q != cur {
        ClosedGrows(g, best, v + {cur}, v + {cur} + {next}, q);
      }
    }
  }

  lemma ClimbEnd(g: Graph, best: seq<nat>, v0: set<Pos>, v: set<Pos>, w: set<Pos>, start: Pos, cur: Pos)
    requires Climbed(g, best, v0, v, start, cur)
    requires Explored(g, best, v, w, {cur}) && cur in w
    ensures Explored(g, best, v0, w, {start}) && start in w
  {
    forall q | q in w - v0
      ensures ReachFrom(g, best, {start}, q) && SettledAt(g, best, v0, w, q)
    {
      if q in v {
        ClosedGrows(g, best, v + {cur}, w, q);
      } else {
        assert q in w - v && SettledAt(g, best, v, w, q);
        ReachTrans(g, best, start, cur, q);
        if !ClosedAt(g, best, w, q) {
          var p :| p in v && HitsDemux(p, q.n.idx);
          if p !in v0 {
            ClosedGrows(g, best, v + {cur}, w, p);
            SameDemuxClosed(g, best, w, p, q);
          }
        }
      }
    }
  }

  lemma {:induction false} ClosedReach(g: Graph, best: seq<nat>, v: set<Pos>, p: Pos, q: Pos, n: nat)
    requires forall r :: r in v ==> ClosedAt(g, best, v, r)
    requires p in v && ReachIn(g, best, p, q, n)
    ensures q in v
    decreases n
  {
    if n > 0 {
      var r :| Step(g, best, p, r) && ReachIn(g, best, r, q, n - 1);
      assert ClosedAt(g, best, v, p);
      ClosedReach(g, best, v, r, q, n - 1);
    }
  }

  /** An exploration that starts from nothing finds exactly what the roots reach. */
  lemma ExploredExactly(g: Graph, best: seq<nat>, v: set<Pos>, roots: set<Pos>)
    requires Explored(g, best, {}, v, roots) && roots <= v
    ensures forall q :: q in v <==> ReachFrom(g, best, roots, q)
  {
    forall q | ReachFrom(g, best, roots, q) ensures q in v {
      var p :| p in roots && Reach(g, best, p, q);
      var n: nat :| ReachIn(g, best, p, q, n);
      forall r | r in v ensures ClosedAt(g, best, v, r) {
        assert r in v - {};
      }
      ClosedReach(g, best, v, p, q, n);
    }
    forall q | q in v ensures ReachFrom(g, best, roots, q) {
      assert q in v - {};
    }
  }

  /** One more root explored after the others. */
  lemma ExploreRoot(g: Graph, best: seq<nat>, v1: set<Pos>, v2: set<Pos>, p: Pos, roots: set<Pos>)
    requires Explored(g, best, {}, v1, roots) && roots <= v1
    requires Explored(g, best, v1, v2, {p}) && p in v2
    ensures Explored(g, best, {}, v2, roots + {p}) && roots + {p} <= v2
  {
    var all := roots + {p};
    forall q | q in v1 - {} ensures ReachFrom(g, best, all, q) {
      var r :| r in roots && Reach(g, best, r, q);
      assert r in all;
    }
    forall q | q in v2 - v1 ensures ReachFrom(g, best, all, q) {
      var r :| r in {p} && Reach(g, best, r, q);
      assert r in all;
    }
    ExploredThen(g, best, {}, v1, v2, all);
  }
}
