/**
 A depth-first search upstream for a cycle, as a recursive function: what it answers, which inputs
 it never gets past, and which of them it meets first.
 */
module SearchOrder {
  import opened Cycles

  /** Nothing found, a node met again on its own path, or an input the search never gets past. */
  datatype Outcome = Clear | Loop | Endless

  /** A path of different nodes. */
  ghost predicate OnPath(adj: Adjacency, p: seq<nat>) {
    |p| > 0 && (forall i :: 0 <= i < |p| ==> p[i] < |adj|) && !Repeats(p)
  }

  function Last(p: seq<nat>): nat
    requires |p| > 0
  {
    p[|p| - 1]
  }

  lemma PathGrows(adj: Adjacency, p: seq<nat>, h: nat)
    requires OnPath(adj, p) && h < |adj| && h !in p
    ensures OnPath(adj, p + [h]) && |p| < |adj|
  {
    var q := p + [h];
    forall i, j | 0 <= i < j < |q| ensures q[i] != q[j] {
      if j < |p| {
        assert p[i] != p[j];
      }
    }
    DistinctBound(q, |adj|);
  }

  /** The search at the last node of path `p`, from its input `j` on. */
  ghost function SearchFrom(adj: Adjacency, p: seq<nat>, j: nat): Outcome
    requires InRange(adj) && OnPath(adj, p)
    decreases |adj| - |p|, |adj[Last(p)]| - j
  {
    DistinctBound(p, |adj|);
    if j >= |adj[Last(p)]| then Clear
    else
      var h := adj[Last(p)][j];
      if h == ENDLESS then Endless
      else if h < 0 then SearchFrom(adj, p, j + 1)
      else if h in p then Loop
      else
        PathGrows(adj, p, h);
        var r := SearchFrom(adj, p + [h], 0);
        if r != Clear then r else SearchFrom(adj, p, j + 1)
  }

  /** Every node in turn, until something is found. */
  ghost function SearchAll(adj: Adjacency, i: nat): Outcome
    requires InRange(adj)
    decreases |adj| - i
  {
    if i >= |adj| then Clear
    else
      var r := SearchFrom(adj, [i], 0);
      if r != Clear then r else SearchAll(adj, i + 1)
  }

  // ---------------------------------------------------------------- what the answers mean

  ghost predicate HasEndless(adj: Adjacency, f: nat) {
    f < |adj| && exists j :: 0 <= j < |adj[f]| && adj[f][j] == ENDLESS
  }

  /** Such an input lies somewhere upstream. */
  ghost predicate EndlessAbove(adj: Adjacency, f: nat) {
    exists p :: Walk(adj, p) && p[0] == f && HasEndless(adj, Last(p))
  }

  lemma EndlessNeedsSource(adj: Adjacency, f: nat)
    requires !HasEndless(adj, f) && forall h: nat :: Feeds(adj, f, h) ==> !EndlessAbove(adj, h)
    ensures !EndlessAbove(adj, f)
  {
    forall p | Walk(adj, p) && p[0] == f ensures !HasEndless(adj, Last(p)) {
      if |p| > 1 {
        WalkTail(adj, p);
        assert Last(p[1..]) == Last(p) && p[1..][0] == p[1];
      }
    }
  }

  lemma {:induction false} ClearInput(adj: Adjacency, p: seq<nat>, j: nat, k: nat)
    requires InRange(adj) && OnPath(adj, p) && SearchFrom(adj, p, j) == Clear && j <= k < |adj[Last(p)]|
    ensures var h := adj[Last(p)][k];
      h != ENDLESS && (h >= 0 ==> h !in p && OnPath(adj, p + [h]) && SearchFrom(adj, p + [h], 0) == Clear)
    decreases k - j
  {
    var h := adj[Last(p)][j];
    if h >= 0 && h !in p {
      PathGrows(adj, p, h);
    }
    if j < k {
      ClearInput(adj, p, j + 1, k);
    }
  }

  /** A node finished without a find has no cycle and no endless input above it. */
  lemma {:induction false} ClearMeans(adj: Adjacency, p: seq<nat>)
    requires InRange(adj) && OnPath(adj, p) && SearchFrom(adj, p, 0) == Clear
    ensures !CycleAbove(adj, Last(p)) && !EndlessAbove(adj, Last(p))
    decreases |adj| - |p|
  {
    var f := Last(p);
    DistinctBound(p, |adj|);
    forall h: nat | Feeds(adj, f, h) ensures !CycleAbove(adj, h) && !EndlessAbove(adj, h) {
      var k :| 0 <= k < |adj[f]| && adj[f][k] == h;
      ClearInput(adj, p, 0, k);
      DistinctBound(p + [h], |adj|);
      ClearMeans(adj, p + [h]);
    }
    forall k | 0 <= k < |adj[f]| ensures adj[f][k] != ENDLESS {
      ClearInput(adj, p, 0, k);
    }
    CycleNeedsSource(adj, f);
    EndlessNeedsSource(adj, f);
  }

  /** Anything found is really there. */
  lemma {:induction false} FoundMeans(adj: Adjacency, p: seq<nat>, j: nat)
    requires InRange(adj) && OnPath(adj, p) && Walk(adj, p)
    ensures SearchFrom(adj, p, j) == Loop ==> CycleAbove(adj, p[0])
    ensures SearchFrom(adj, p, j) == Endless ==> EndlessAbove(adj, p[0])
    decreases |adj| - |p|, |adj[Last(p)]| - j
  {
    DistinctBound(p, |adj|);
    if j < |adj[Last(p)]| {
      var h := adj[Last(p)][j];
      if h == ENDLESS {
        assert HasEndless(adj, Last(p));
      } else {
        FoundMeans(adj, p, j + 1);
        if h >= 0 {
          assert Feeds(adj, Last(p), h);
          WalkSnoc(adj, p, h);
          if h in p {
            var i :| 0 <= i < |p| && p[i] == h;
            var q := p + [h];
            assert q[i] == q[|p|] && q[0] == p[0];
          } else {
            PathGrows(adj, p, h);
            FoundMeans(adj, p + [h], 0);
          }
        }
      }
    }
  }

  lemma Single(adj: Adjacency, f: nat)
    requires f < |adj|
    ensures OnPath(adj, [f]) && Walk(adj, [f]) && Last([f]) == f
  {
  }

  /** From one node: nothing is found if and only if there is neither a cycle nor an endless input above. */
  lemma OutcomeMeans(adj: Adjacency, f: nat)
    requires InRange(adj) && f < |adj|
    ensures OnPath(adj, [f])
    ensures var r := SearchFrom(adj, [f], 0);
      && (r == Clear <==> !CycleAbove(adj, f) && !EndlessAbove(adj, f))
      && (r == Loop ==> CycleAbove(adj, f)) && (r == Endless ==> EndlessAbove(adj, f))
  {
    Single(adj, f);
    FoundMeans(adj, [f], 0);
    if SearchFrom(adj, [f], 0) == Clear {
      ClearMeans(adj, [f]);
    }
  }

  /** Every way up ends. */
  ghost predicate AllEnd(adj: Adjacency) {
    forall f: nat :: f < |adj| ==> !HasEndless(adj, f)
  }

  lemma {:induction false} SearchAllMeans(adj: Adjacency, i: nat)
    requires InRange(adj)
    ensures var r := SearchAll(adj, i);
      && (r == Clear <==> forall f: nat :: i <= f < |adj| ==> !CycleAbove(adj, f) && !EndlessAbove(adj, f))
      && (r == Loop ==> !Acyclic(adj)) && (r == Endless ==> !AllEnd(adj))
    decreases |adj| - i
  {
    if i < |adj| {
      OutcomeMeans(adj, i);
      SearchAllMeans(adj, i + 1);
      if EndlessAbove(adj, i) {
        var p :| Walk(adj, p) && p[0] == i && HasEndless(adj, Last(p));
      }
    }
  }

  /**
   The whole search finds nothing if and only if there is no cycle and every way up ends. Without a
   cycle it is stuck exactly when some way up does not end.
   */
  lemma SearchMeans(adj: Adjacency)
    requires InRange(adj)
    ensures SearchAll(adj, 0) == Clear <==> Acyclic(adj) && AllEnd(adj)
    ensures Acyclic(adj) ==> (SearchAll(adj, 0) == Endless <==> !AllEnd(adj))
    ensures AllEnd(adj) ==> (SearchAll(adj, 0) == Loop <==> !Acyclic(adj))
  {
    SearchAllMeans(adj, 0);
    if AllEnd(adj) {
      forall f: nat | f < |adj| ensures !EndlessAbove(adj, f) {
      }
    } else {
      var f: nat :| f < |adj| && HasEndless(adj, f);
      Single(adj, f);
      assert EndlessAbove(adj, f);
    }
  }

  // ---------------------------------------------------------------- which find comes first

  /** Following inputs `r` from the end of `p` stops at an endless input, or at a node met again. */
  ghost predicate StopsAt(adj: Adjacency, p: seq<nat>, r: seq<nat>, endless: bool)
    decreases |r|
  {
    && |r| > 0 && |p| > 0 && Last(p) < |adj| && r[0] < |adj[Last(p)]|
    && var h := adj[Last(p)][r[0]];
       if |r| == 1 then (if endless then h == ENDLESS else h in p)
       else h >= 0 && h !in p && StopsAt(adj, p + [h], r[1..], endless)
  }

  /** In the order of the search. */
  predicate Before(r: seq<nat>, q: seq<nat>)
    decreases |r|
  {
    |r| > 0 && |q| > 0 && (r[0] < q[0] || (r[0] == q[0] && Before(r[1..], q[1..])))
  }

  /** Of two stops one comes first, unless they are the same. */
  lemma {:induction false} StopsComparable(adj: Adjacency, p: seq<nat>, r: seq<nat>, q: seq<nat>, a: bool, b: bool)
    requires StopsAt(adj, p, r, a) && StopsAt(adj, p, q, b)
    ensures (r == q && a == b) || Before(r, q) || Before(q, r)
    decreases |r|
  {
    var h := adj[Last(p)][r[0]];
    if r[0] == q[0] {
      if |r| > 1 && |q| > 1 {
        StopsComparable(adj, p + [h], r[1..], q[1..], a, b);
        assert r == [r[0]] + r[1..] && q == [q[0]] + q[1..];
      }
    }
  }

  /** What is found is the first stop there is. */
  lemma {:induction false} FirstStop(adj: Adjacency, p: seq<nat>, j: nat) returns (r: seq<nat>)
    requires InRange(adj) && OnPath(adj, p)
    ensures var o := SearchFrom(adj, p, j);
      && (o == Clear ==> forall q, e :: StopsAt(adj, p, q, e) ==> q[0] < j)
      && (o != Clear ==>
            && StopsAt(adj, p, r, o == Endless) && r[0] >= j
            && forall q, e :: StopsAt(adj, p, q, e) && q[0] >= j ==> !Before(q, r))
    decreases |adj| - |p|, |adj[Last(p)]| - j
  {
    DistinctBound(p, |adj|);
    r := [j];
    if j < |adj[Last(p)]| {
      var h := adj[Last(p)][j];
      if h != ENDLESS && !(h in p) {
        if h >= 0 {
          PathGrows(adj, p, h);
          var rest := FirstStop(adj, p + [h], 0);
          if SearchFrom(adj, p + [h], 0) != Clear {
            r := [j] + rest;
            assert r[1..] == rest;
            return;
          }
        }
        r := FirstStop(adj, p, j + 1);
      }
    }
  }

  /** A node to start from, and inputs to follow from there. */
  ghost predicate StopOf(adj: Adjacency, r: seq<nat>, endless: bool) {
    |r| > 1 && r[0] < |adj| && StopsAt(adj, [r[0]], r[1..], endless)
  }

  lemma {:induction false} FirstStopOfAll(adj: Adjacency, i: nat) returns (r: seq<nat>)
    requires InRange(adj)
    ensures var o := SearchAll(adj, i);
      && (o == Clear ==> forall q, e :: StopOf(adj, q, e) ==> q[0] < i)
      && (o != Clear ==>
            && StopOf(adj, r, o == Endless) && r[0] >= i
            && forall q, e :: StopOf(adj, q, e) && q[0] >= i ==> !Before(q, r))
    decreases |adj| - i
  {
    r := [];
    if i < |adj| {
      Single(adj, i);
      var rest := FirstStop(adj, [i], 0);
      if SearchFrom(adj, [i], 0) != Clear {
        r := [i] + rest;
        assert r[1..] == rest;
      } else {
        r := FirstStopOfAll(adj, i + 1);
      }
    }
  }

  /**
   The search never returns if and only if there is an endless input that no node met again comes
   before, in the order in which inputs are followed; it reports a cycle if and only if there is a
   node met again that no endless input comes before.
   */
  lemma StuckIff(adj: Adjacency)
    requires InRange(adj)
    ensures SearchAll(adj, 0) == Endless <==>
      exists r :: StopOf(adj, r, true) && forall q :: StopOf(adj, q, false) ==> !Before(q, r)
    ensures SearchAll(adj, 0) == Loop <==>
      exists r :: StopOf(adj, r, false) && forall q :: StopOf(adj, q, true) ==> !Before(q, r)
  {
    hide StopsAt, SearchAll;
    var first := FirstStopOfAll(adj, 0);
    forall r, e | StopOf(adj, r, e) && (forall q :: StopOf(adj, q, !e) ==> !Before(q, r))
      ensures SearchAll(adj, 0) == if e then Endless else Loop
    {
      var o := SearchAll(adj, 0);
      assert o != Clear;
      if (o == Endless) != e {
        if first[0] == r[0] {
          StopsComparable(adj, [r[0]], r[1..], first[1..], e, o == Endless);
        }
        assert Before(r, first) || Before(first, r);
      }
    }
  }
}
