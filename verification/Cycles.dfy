/**
 Walks in a finite graph given by adjacency lists.  `adj[f][j]` is the node behind
 input `j` of node `f`, -1 when that input is fed from outside, -2 when the way up never ends.
 */
module Cycles {

  type Adjacency = seq<seq<int>>

  /** An input behind which the way up never ends. */
  const ENDLESS := -2

  ghost predicate InRange(adj: Adjacency) {
    forall f, j :: 0 <= f < |adj| && 0 <= j < |adj[f]| ==> ENDLESS <= adj[f][j] < |adj|
  }

  /** Some input of `f` is fed by `h`. */
  ghost predicate Feeds(adj: Adjacency, f: nat, h: nat) {
    f < |adj| && h < |adj| && exists j :: 0 <= j < |adj[f]| && adj[f][j] == h
  }

  /** A walk upstream, from a node to one that feeds it, and so on. */
  ghost predicate Walk(adj: Adjacency, p: seq<nat>) {
    && |p| > 0
    && p[0] < |adj|
    && forall i :: 0 <= i < |p| - 1 ==> Feeds(adj, p[i], p[i + 1])
  }

  ghost predicate Repeats(p: seq<nat>) {
    exists i, j :: 0 <= i < j < |p| && p[i] == p[j]
  }

  /** A cycle can be reached by walking upstream from `f`. */
  ghost predicate CycleAbove(adj: Adjacency, f: nat) {
    exists p :: Walk(adj, p) && p[0] == f && Repeats(p)
  }

  ghost predicate Acyclic(adj: Adjacency) {
    forall f: nat :: f < |adj| ==> !CycleAbove(adj, f)
  }

  lemma WalkTail(adj: Adjacency, p: seq<nat>)
    requires Walk(adj, p) && |p| > 1
    ensures Walk(adj, p[1..]) && Feeds(adj, p[0], p[1])
  {
    assert Feeds(adj, p[0], p[1]);
    forall k | 0 <= k < |p[1..]| - 1 ensures Feeds(adj, p[1..][k], p[1..][k + 1]) {
      assert Feeds(adj, p[k + 1], p[k + 2]);
    }
  }

  lemma WalkCons(adj: Adjacency, f: nat, p: seq<nat>)
    requires Walk(adj, p) && Feeds(adj, f, p[0])
    ensures Walk(adj, [f] + p)
  {
    var q := [f] + p;
    forall k | 0 <= k < |q| - 1 ensures Feeds(adj, q[k], q[k + 1]) {
      if k > 0 {
        assert Feeds(adj, p[k - 1], p[k]);
      }
    }
  }

  lemma WalkSnoc(adj: Adjacency, p: seq<nat>, h: nat)
    requires Walk(adj, p) && Feeds(adj, p[|p| - 1], h)
    ensures Walk(adj, p + [h])
  {
    var q := p + [h];
    forall k | 0 <= k < |q| - 1 ensures Feeds(adj, q[k], q[k + 1]) {
      if k < |p| - 1 {
        assert Feeds(adj, p[k], p[k + 1]);
      }
    }
  }

  lemma WalkPrefix(adj: Adjacency, p: seq<nat>, n: nat)
    requires Walk(adj, p) && 0 < n <= |p|
    ensures Walk(adj, p[..n])
  {
    forall k | 0 <= k < n - 1 ensures Feeds(adj, p[..n][k], p[..n][k + 1]) {
      assert Feeds(adj, p[k], p[k + 1]);
    }
  }

  /** A repetition on a walk can be moved to a walk that starts one node later. */
  lemma ShiftRepeat(adj: Adjacency, p: seq<nat>)
    requires Walk(adj, p) && Repeats(p)
    ensures |p| > 1 && Feeds(adj, p[0], p[1]) && CycleAbove(adj, p[1])
  {
    var i, j :| 0 <= i < j < |p| && p[i] == p[j];
    WalkTail(adj, p);
    var q := p[1..];
    if i > 0 {
      assert q[i - 1] == q[j - 1];
    } else {
      // the walk comes back to its start: go round once more from the node after it
      WalkPrefix(adj, q, j);
      assert q[..j][j - 1] == p[0];
      WalkSnoc(adj, q[..j], p[1]);
      q := q[..j] + [p[1]];
      assert q[0] == q[j];
    }
    assert Walk(adj, q) && q[0] == p[1] && Repeats(q);
  }

  /** A node has a cycle above it only if one of the nodes feeding it has. */
  lemma CycleNeedsSource(adj: Adjacency, f: nat)
    requires forall h: nat :: Feeds(adj, f, h) ==> !CycleAbove(adj, h)
    ensures !CycleAbove(adj, f)
  {
    forall p | Walk(adj, p) && p[0] == f ensures !Repeats(p) {
      if Repeats(p) {
        ShiftRepeat(adj, p);
      }
    }
  }

  /** A non-empty walk leads from `f` up to `h`. */
  ghost predicate Upstream(adj: Adjacency, f: nat, h: nat) {
    exists p :: Walk(adj, p) && |p| > 1 && p[0] == f && p[|p| - 1] == h
  }

  ghost function Ancestors(adj: Adjacency, f: nat): set<nat> {
    set h: nat | h < |adj| && Upstream(adj, f, h)
  }

  /** Without cycles, going up loses ancestors: the order that makes upstream recursion finite. */
  lemma AncestorsShrink(adj: Adjacency, f: nat, h: nat)
    requires Acyclic(adj) && Feeds(adj, f, h)
    ensures |Ancestors(adj, h)| < |Ancestors(adj, f)|
  {
    forall a | a in Ancestors(adj, h) ensures a in Ancestors(adj, f) {
      var p :| Walk(adj, p) && |p| > 1 && p[0] == h && p[|p| - 1] == a;
      WalkCons(adj, f, p);
      var q := [f] + p;
      assert q[|q| - 1] == a;
    }
    assert h in Ancestors(adj, f) by {
      var q := [f, h];
      assert Walk(adj, q) && q[|q| - 1] == h;
    }
    assert !Upstream(adj, h, h) by {
      assert !CycleAbove(adj, h);
      forall p | Walk(adj, p) && |p| > 1 && p[0] == h ensures p[|p| - 1] != h {
        assert !Repeats(p);
      }
    }
    var a, b := Ancestors(adj, h), Ancestors(adj, f);
    assert b == a + (b - a);
    assert |b| == |a| + |b - a| && h in b - a;
  }

  ghost function Below(n: nat): (s: set<nat>)
    ensures |s| == n && forall k :: k in s <==> 0 <= k < n
  {
    if n == 0 then {} else Below(n - 1) + {n - 1}
  }

  ghost function Elements(p: seq<nat>): (s: set<nat>)
    ensures forall x :: x in s <==> x in p
  {
    if p == [] then {} else Elements(p[..|p| - 1]) + {p[|p| - 1]}
  }

  lemma PrefixDistinct(p: seq<nat>)
    requires p != [] && !Repeats(p)
    ensures !Repeats(p[..|p| - 1])
    ensures p[|p| - 1] !in p[..|p| - 1]
  {
    var m := |p| - 1;
    forall i, j | 0 <= i < j < |p[..m]| ensures p[..m][i] != p[..m][j] {
      assert p[i] != p[j];
    }
    forall i | 0 <= i < |p[..m]| ensures p[..m][i] != p[m] {
      assert p[i] != p[m];
    }
  }

  lemma {:induction false} DistinctCard(p: seq<nat>)
    requires !Repeats(p)
    ensures |Elements(p)| == |p|
  {
    if p != [] {
      PrefixDistinct(p);
      DistinctCard(p[..|p| - 1]);
      assert p[|p| - 1] !in Elements(p[..|p| - 1]);
    }
  }

  /** A sequence without repetitions drawn from `0..n` has at most `n` elements. */
  lemma DistinctBound(p: seq<nat>, n: nat)
    requires forall i :: 0 <= i < |p| ==> p[i] < n
    requires !Repeats(p)
    ensures |p| <= n
  {
    DistinctCard(p);
    var s, all := Elements(p), Below(n);
    assert s <= all;
    assert all == s + (all - s);
  }
}
