/**
 The start-up check that the transcoding graph has no cycle: a depth-first search
 upstream from every filtergraph, on an explicit stack with one slot per filtergraph.
 Filtergraphs already explored are explored again when met a second time.
 */
module CycleCheck {
  import opened Topology
  import opened SearchOrder
  import Cycles

  datatype Mark = New | Started | Done

  // ---------------------------------------------------------------- the search path

  function Indices(frames: seq<Node>): (p: seq<nat>)
    ensures |p| == |frames| && forall i :: 0 <= i < |p| ==> p[i] == frames[i].idx
  {
    seq(|frames|, i requires 0 <= i < |frames| => frames[i].idx)
  }

  /** Each frame but the last has just descended into the frame after it. */
  ghost predicate PathOk(adj: Cycles.Adjacency, frames: seq<Node>) {
    && |frames| > 0
    && (forall i :: 0 <= i < |frames| ==> frames[i].idx < |adj| && frames[i].stream <= |adj[frames[i].idx]|)
    && (forall i :: 0 <= i < |frames| - 1 ==>
          0 < frames[i].stream && adj[frames[i].idx][frames[i].stream - 1] == frames[i + 1].idx)
    && !Cycles.Repeats(Indices(frames))
  }

  /** Descending never needs more stack slots than there are filtergraphs. */
  lemma StackFits(adj: Cycles.Adjacency, frames: seq<Node>)
    requires PathOk(adj, frames)
    ensures |frames| <= |adj|
  {
    Cycles.DistinctBound(Indices(frames), |adj|);
  }

  lemma PushPath(adj: Cycles.Adjacency, frames: seq<Node>, next: Node)
    requires PathOk(adj, frames) && next.idx < |adj| && next.stream == 0
    requires frames[|frames| - 1].stream > 0
    requires adj[frames[|frames| - 1].idx][frames[|frames| - 1].stream - 1] == next.idx
    requires next.idx !in Indices(frames)
    ensures PathOk(adj, frames + [next])
  {
    var p, q := Indices(frames), Indices(frames + [next]);
    assert q == p + [next.idx];
    assert forall i, j :: 0 <= i < j < |p| ==> p[i] != p[j];
  }

  lemma PopPath(adj: Cycles.Adjacency, frames: seq<Node>)
    requires PathOk(adj, frames) && |frames| > 1
    ensures PathOk(adj, frames[..|frames| - 1])
  {
    var p, q := Indices(frames), Indices(frames[..|frames| - 1]);
    assert forall i, j :: 0 <= i < j < |p| ==> p[i] != p[j];
  }

  lemma StepPath(adj: Cycles.Adjacency, frames: seq<Node>, last: Node)
    requires PathOk(adj, frames) && last.idx == frames[|frames| - 1].idx && last.stream <= |adj[last.idx]|
    ensures PathOk(adj, frames[|frames| - 1 := last])
  {
    assert Indices(frames[|frames| - 1 := last]) == Indices(frames);
  }

  // ---------------------------------------------------------------- termination

  function Pow(b: nat, e: nat): nat {
    if e == 0 then 1 else b * Pow(b, e - 1)
  }

  lemma {:induction false} PowPositive(b: nat, e: nat)
    requires b > 0
    ensures Pow(b, e) > 0
  {
    if e > 0 {
      PowPositive(b, e - 1);
    }
  }

  ghost function MaxInputs(adj: Cycles.Adjacency, i: nat): (m: nat)
    requires i <= |adj|
    ensures forall f :: 0 <= f < i ==> |adj[f]| <= m
  {
    if i == 0 then 0
    else
      var m := MaxInputs(adj, i - 1);
      if |adj[i - 1]| > m then |adj[i - 1]| else m
  }

  /** For each frame the inputs left to look at, plus one for the frame itself. */
  ghost function Left(adj: Cycles.Adjacency, frames: seq<Node>): (l: seq<nat>)
    ensures |l| == |frames|
    ensures forall i :: 0 <= i < |l| ==> l[i] == LeftAt(adj, frames[i])
  {
    seq(|frames|, i requires 0 <= i < |frames| => LeftAt(adj, frames[i]))
  }

  ghost function LeftAt(adj: Cycles.Adjacency, n: Node): nat {
    if n.idx < |adj| && n.stream <= |adj[n.idx]| then |adj[n.idx]| - n.stream + 1 else 0
  }

  /** A frame outweighs anything that can be stacked above it. */
  ghost function Weight(left: seq<nat>, b: nat, slots: nat): nat
    requires |left| <= slots
  {
    if left == [] then 0
    else
      var m := |left| - 1;
      Weight(left[..m], b, slots) + left[m] * Pow(b, slots - |left|)
  }

  lemma WeightSnoc(left: seq<nat>, x: nat, b: nat, slots: nat)
    requires |left| < slots
    ensures Weight(left + [x], b, slots) == Weight(left, b, slots) + x * Pow(b, slots - |left| - 1)
  {
    assert (left + [x])[..|left|] == left;
  }

  lemma PushArithmetic(x: nat, y: nat, b: nat, w: nat)
    requires y < b && w > 0
    ensures x * (b * w) + y * w < (x + 1) * (b * w)
  {
    assert (x + 1) * (b * w) == x * (b * w) + b * w;
    assert y * w < b * w;
  }

  /** Spending one unit of the last frame pays for a whole new frame above it. */
  lemma WeightPush(left: seq<nat>, x: nat, y: nat, b: nat, slots: nat)
    requires |left| + 1 < slots && y < b
    ensures Weight(left + [x] + [y], b, slots) < Weight(left + [x + 1], b, slots)
  {
    var w := Pow(b, slots - |left| - 2);
    WeightSnoc(left + [x], y, b, slots);
    WeightSnoc(left, x, b, slots);
    WeightSnoc(left, x + 1, b, slots);
    PowPositive(b, slots - |left| - 2);
    var bw := Pow(b, slots - |left| - 1);
    assert bw == b * w;
    PushArithmetic(x, y, b, w);
    assert x * bw + y * w < (x + 1) * bw;
  }

  lemma WeightDrop(left: seq<nat>, x: nat, b: nat, slots: nat)
    requires |left| < slots && b > 0
    ensures Weight(left + [x], b, slots) < Weight(left + [x + 1], b, slots)
    ensures Weight(left, b, slots) < Weight(left + [x + 1], b, slots)
  {
    WeightSnoc(left, x, b, slots);
    WeightSnoc(left, x + 1, b, slots);
    var w := Pow(b, slots - |left| - 1);
    PowPositive(b, slots - |left| - 1);
    assert (x + 1) * w == x * w + w;
  }

  /** The termination measure of the search. */
  ghost function Measure(adj: Cycles.Adjacency, frames: seq<Node>): nat {
    if |frames| <= |adj| then Weight(Left(adj, frames), MaxInputs(adj, |adj|) + 2, |adj|) else 0
  }

  // ---------------------------------------------------------------- the search state

  /** The marks agree with the search path: started means stacked or current. */
  ghost predicate MarksOk(marks: seq<Mark>, frames: seq<Node>)
    requires |frames| > 0
  {
    && (forall i :: 0 <= i < |frames| - 1 ==> frames[i].idx < |marks| && marks[frames[i].idx] == Started)
    && (forall f :: 0 <= f < |marks| && marks[f] == Started ==> f in Indices(frames))
  }

  /** What the recursive search answers when it goes on with the last frame, then with the ones below. */
  ghost function Resume(adj: Cycles.Adjacency, frames: seq<Node>): Outcome
    requires Cycles.InRange(adj) && |frames| > 0 && OnPath(adj, Indices(frames))
    decreases |frames|
  {
    var m := |frames| - 1;
    var r := SearchFrom(adj, Indices(frames), frames[m].stream);
    if r != Clear || m == 0 then r
    else
      PathShrinks(adj, frames);
      Resume(adj, frames[..m])
  }

  lemma PathShrinks(adj: Cycles.Adjacency, frames: seq<Node>)
    requires |frames| > 1 && OnPath(adj, Indices(frames))
    ensures OnPath(adj, Indices(frames[..|frames| - 1]))
    ensures Indices(frames) == Indices(frames[..|frames| - 1]) + [frames[|frames| - 1].idx]
  {
    var p, q := Indices(frames), Indices(frames[..|frames| - 1]);
    assert forall i, j :: 0 <= i < j < |p| ==> p[i] != p[j];
  }

  /** What holds whenever the search takes up a frame: going on from it answers what the whole search does. */
  ghost predicate SearchOk(adj: Cycles.Adjacency, start: nat, marks: seq<Mark>, frames: seq<Node>) {
    && Cycles.InRange(adj) && |marks| == |adj|
    && PathOk(adj, frames) && frames[0].idx == start
    && MarksOk(marks, frames)
    && OnPath(adj, Indices(frames)) && OnPath(adj, [start])
    && Resume(adj, frames) == SearchFrom(adj, [start], 0)
  }

  lemma Begin(adj: Cycles.Adjacency, start: nat, marks: seq<Mark>)
    requires Cycles.InRange(adj) && start < |adj| == |marks|
    requires forall f :: 0 <= f < |marks| ==> marks[f] == New
    ensures SearchOk(adj, start, marks, [Node(NoType, start, 0)])
  {
    Single(adj, start);
    assert Indices([Node(NoType, start, 0)]) == [start];
  }

  lemma MarkStarted(adj: Cycles.Adjacency, start: nat, marks: seq<Mark>, frames: seq<Node>)
    requires SearchOk(adj, start, marks, frames)
    ensures |frames| <= |adj| == |marks|
    ensures var n := frames[|frames| - 1]; n.idx < |adj| && n.stream <= |adj[n.idx]|
    ensures SearchOk(adj, start, marks[frames[|frames| - 1].idx := Started], frames)
  {
    hide Resume, SearchFrom;
    StackFits(adj, frames);
    var p := Indices(frames);
    assert p[|p| - 1] == frames[|frames| - 1].idx;
  }

  /** The last frame moves on to its next input. */
  function Advanced(frames: seq<Node>): (r: seq<Node>)
    requires |frames| > 0
    ensures |r| == |frames| && forall i :: 0 <= i < |frames| - 1 ==> r[i] == frames[i]
    ensures r[|r| - 1].idx == frames[|frames| - 1].idx && r[|r| - 1].stream == frames[|frames| - 1].stream + 1
  {
    var m := |frames| - 1;
    frames[m := frames[m].(stream := frames[m].stream + 1)]
  }

  lemma LeftSplit(adj: Cycles.Adjacency, frames: seq<Node>)
    requires |frames| > 0
    ensures var m := |frames| - 1;
      Left(adj, frames) == Left(adj, frames[..m]) + [LeftAt(adj, frames[m])]
  {
  }

  lemma MeasurePass(adj: Cycles.Adjacency, frames: seq<Node>)
    requires 0 < |frames| <= |adj|
    requires var n := frames[|frames| - 1]; n.idx < |adj| && n.stream < |adj[n.idx]|
    ensures Measure(adj, Advanced(frames)) < Measure(adj, frames)
  {
    var m := |frames| - 1;
    var next := Advanced(frames);
    LeftSplit(adj, frames);
    LeftSplit(adj, next);
    assert next[..m] == frames[..m];
    WeightDrop(Left(adj, frames[..m]), LeftAt(adj, next[m]), MaxInputs(adj, |adj|) + 2, |adj|);
  }

  lemma MeasureDescend(adj: Cycles.Adjacency, frames: seq<Node>, h: nat)
    requires 0 < |frames| < |adj| && h < |adj|
    requires var n := frames[|frames| - 1]; n.idx < |adj| && n.stream < |adj[n.idx]|
    ensures Measure(adj, Advanced(frames) + [Node(NoType, h, 0)]) < Measure(adj, frames)
  {
    var m := |frames| - 1;
    var next := Advanced(frames);
    var node := Node(NoType, h, 0);
    var all := next + [node];
    LeftSplit(adj, frames);
    LeftSplit(adj, next);
    LeftSplit(adj, all);
    assert next[..m] == frames[..m] && all[..|frames|] == next;
    WeightPush(Left(adj, frames[..m]), LeftAt(adj, next[m]), LeftAt(adj, node), MaxInputs(adj, |adj|) + 2, |adj|);
  }

  lemma MeasureFinish(adj: Cycles.Adjacency, frames: seq<Node>)
    requires 1 < |frames| <= |adj|
    requires var n := frames[|frames| - 1]; n.idx < |adj| && n.stream <= |adj[n.idx]|
    ensures Measure(adj, frames[..|frames| - 1]) < Measure(adj, frames)
  {
    var m := |frames| - 1;
    LeftSplit(adj, frames);
    WeightDrop(Left(adj, frames[..m]), LeftAt(adj, frames[m]) - 1, MaxInputs(adj, |adj|) + 2, |adj|);
  }

  lemma AdvancedIndices(frames: seq<Node>)
    requires |frames| > 0
    ensures Indices(Advanced(frames)) == Indices(frames)
    ensures Advanced(frames)[..|frames| - 1] == frames[..|frames| - 1]
  {
  }

  /** The started marks are the path, so that meeting one is meeting a node of the path again. */
  lemma StartedOnPath(adj: Cycles.Adjacency, start: nat, marks: seq<Mark>, frames: seq<Node>, h: nat)
    requires SearchOk(adj, start, marks, frames) && marks[frames[|frames| - 1].idx] == Started && h < |marks|
    ensures marks[h] == Started <==> h in Indices(frames)
  {
    hide Resume, SearchFrom, OnPath;
    if h in Indices(frames) {
      var k :| 0 <= k < |frames| && Indices(frames)[k] == h;
    }
  }

  lemma PassInput(adj: Cycles.Adjacency, start: nat, marks: seq<Mark>, frames: seq<Node>)
    requires SearchOk(adj, start, marks, frames)
    requires var n := frames[|frames| - 1]; n.stream < |adj[n.idx]| && adj[n.idx][n.stream] == -1
    ensures SearchOk(adj, start, marks, Advanced(frames))
  {
    var next := Advanced(frames);
    AdvancedIndices(frames);
    StepPath(adj, frames, next[|frames| - 1]);
  }

  /** Behind an endless input the search is stuck, as the recursive one is. */
  lemma MeetEndless(adj: Cycles.Adjacency, start: nat, marks: seq<Mark>, frames: seq<Node>)
    requires SearchOk(adj, start, marks, frames)
    requires var n := frames[|frames| - 1]; n.stream < |adj[n.idx]| && adj[n.idx][n.stream] == Cycles.ENDLESS
    ensures SearchFrom(adj, [start], 0) == Endless && EndlessAbove(adj, start)
  {
    hide PathOk, MarksOk;
    assert SearchFrom(adj, Indices(frames), frames[|frames| - 1].stream) == Endless;
    OutcomeMeans(adj, start);
  }

  /** Meeting a started filtergraph again means that there is a cycle, as the recursive search finds. */
  lemma MeetStarted(adj: Cycles.Adjacency, start: nat, marks: seq<Mark>, frames: seq<Node>, h: nat)
    requires SearchOk(adj, start, marks, frames) && marks[frames[|frames| - 1].idx] == Started
    requires var n := frames[|frames| - 1]; n.stream < |adj[n.idx]| && adj[n.idx][n.stream] == h && marks[h] == Started
    ensures SearchFrom(adj, [start], 0) == Loop && Cycles.CycleAbove(adj, start)
  {
    StartedOnPath(adj, start, marks, frames, h);
    hide PathOk, MarksOk;
    assert SearchFrom(adj, Indices(frames), frames[|frames| - 1].stream) == Loop;
    OutcomeMeans(adj, start);
  }

  lemma ResumeBelow(adj: Cycles.Adjacency, frames: seq<Node>, h: nat)
    requires Cycles.InRange(adj) && |frames| > 0 && OnPath(adj, Indices(frames))
    requires var n := frames[|frames| - 1];
      n.stream < |adj[n.idx]| && adj[n.idx][n.stream] == h && h !in Indices(frames)
    ensures var all := Advanced(frames) + [Node(NoType, h, 0)];
      OnPath(adj, Indices(all)) && Resume(adj, all) == Resume(adj, frames)
  {
    var next, node := Advanced(frames), Node(NoType, h, 0);
    var all, p := next + [node], Indices(frames);
    AdvancedIndices(frames);
    assert Indices(all) == p + [h];
    PathGrows(adj, p, h);
    assert all[..|frames|] == next;
    assert Last(p) == frames[|frames| - 1].idx;
    assert Resume(adj, all) ==
      (var r := SearchFrom(adj, p + [h], 0); if r != Clear then r else Resume(adj, next));
  }

  lemma Descend(adj: Cycles.Adjacency, start: nat, marks: seq<Mark>, frames: seq<Node>, h: nat)
    requires SearchOk(adj, start, marks, frames)
    requires var n := frames[|frames| - 1];
      n.stream < |adj[n.idx]| && adj[n.idx][n.stream] == h && marks[n.idx] == Started && marks[h] != Started
    ensures |frames| < |adj|
    ensures SearchOk(adj, start, marks, Advanced(frames) + [Node(NoType, h, 0)])
  {
    hide Resume, SearchFrom, OnPath;
    var m := |frames| - 1;
    var next := Advanced(frames);
    var node := Node(NoType, h, 0);
    StartedOnPath(adj, start, marks, frames, h);
    ResumeBelow(adj, frames, h);
    AdvancedIndices(frames);
    StepPath(adj, frames, next[m]);
    PushPath(adj, next, node);
    StackFits(adj, next + [node]);
    assert Indices(next + [node]) == Indices(next) + [h];
  }

  /** A filtergraph whose inputs have all been passed answers with what is stacked below it. */
  lemma Finish(adj: Cycles.Adjacency, start: nat, marks: seq<Mark>, frames: seq<Node>)
    requires SearchOk(adj, start, marks, frames)
    requires var n := frames[|frames| - 1]; n.stream == |adj[n.idx]|
    ensures |frames| == 1 ==> SearchFrom(adj, [start], 0) == Clear
    ensures |frames| > 1 ==> var n := frames[|frames| - 1];
      SearchOk(adj, start, marks[n.idx := Done], frames[..|frames| - 1])
  {
    assert SearchFrom(adj, Indices(frames), frames[|frames| - 1].stream) == Clear;
    if |frames| > 1 {
      hide OnPath, SearchFrom;
      PathShrinks(adj, frames);
      PopPath(adj, frames);
      MarksPop(marks, frames);
    }
  }

  lemma MarksPop(marks: seq<Mark>, frames: seq<Node>)
    requires |frames| > 1 && !Cycles.Repeats(Indices(frames))
    requires frames[|frames| - 1].idx < |marks| && MarksOk(marks, frames)
    ensures MarksOk(marks[frames[|frames| - 1].idx := Done], frames[..|frames| - 1])
  {
    var m := |frames| - 1;
    var p := Indices(frames);
    assert forall i :: 0 <= i < m ==> p[i] != p[m];
    var marks' := marks[p[m] := Done];
    var q := Indices(frames[..m]);
    forall f | 0 <= f < |marks'| && marks'[f] == Started ensures f in q {
      var k :| 0 <= k < |p| && p[k] == f;
      assert q[k] == f;
    }
  }

  // ---------------------------------------------------------------- the search

  /** `adj` is the graph the search sees through the source chains. */
  ghost predicate SeenAs(g: Graph, adj: Cycles.Adjacency) {
    && |adj| == |g.filters| && Cycles.InRange(adj)
    && (forall f :: 0 <= f < |adj| ==> |adj[f]| == |g.filters[f].inputs|)
    && (forall f, j :: 0 <= f < |adj| && 0 <= j < |adj[f]| ==> SeenInput(g, g.filters[f].inputs[j], adj[f][j]))
  }

  ghost predicate SeenInput(g: Graph, n: Node, h: int) {
    SourceOk(g, n) && h == Behind(g, n)
  }

  lemma SeenShape(g: Graph, adj: Cycles.Adjacency)
    requires SeenAs(g, adj)
    ensures |adj| == |g.filters| && Cycles.InRange(adj)
    ensures forall f :: 0 <= f < |adj| ==> |adj[f]| == |g.filters[f].inputs|
  {
  }

  lemma InputSeen(g: Graph, adj: Cycles.Adjacency, f: nat, j: nat)
    requires SeenAs(g, adj) && f < |g.filters| && j < |g.filters[f].inputs|
    ensures f < |adj| && j < |adj[f]|
    ensures var n := g.filters[f].inputs[j];
      && SourceOk(g, n)
      && (!HasGround(g, n) ==> adj[f][j] == Cycles.ENDLESS)
      && (HasGround(g, n) ==> adj[f][j] == if Root(g, n).ty == FilterOut then Root(g, n).idx else -1)
      && adj[f][j] < |adj|
  {
    assert SeenInput(g, g.filters[f].inputs[j], adj[f][j]);
  }

  /**
   Searches upstream from one filtergraph. The answer is that of the recursive search, `Endless`
   standing for a search that never returns.
   */
  method CheckAcyclicForOutput(g: Graph, start: Node, ghost adj: Cycles.Adjacency,
                               visited: array<Mark>, stack: array<Node>)
    returns (found: Outcome)
    requires Wired(g) && SeenAs(g, adj)
    requires start.idx < |g.filters| && start.stream == 0
    requires visited.Length == stack.Length == |g.filters|
    modifies visited, stack
    ensures OnPath(adj, [start.idx]) && found == SearchFrom(adj, [start.idx], 0)
    ensures found == Clear <==> !Cycles.CycleAbove(adj, start.idx) && !EndlessAbove(adj, start.idx)
    ensures found == Loop ==> Cycles.CycleAbove(adj, start.idx)
  {
    hide Measure, SearchOk, PathOk, MarksOk, Wired, SeenAs, Behind, SourceOk, HasGround, SearchFrom, OnPath;
    hide Cycles.CycleAbove, EndlessAbove, Cycles.InRange;
    SeenShape(g, adj);
    OutcomeMeans(adj, start.idx);
    var src, nbStack := Node(NoType, start.idx, 0), 0;
    for i := 0 to visited.Length
      invariant forall f :: 0 <= f < i ==> visited[f] == New
    {
      visited[i] := New;
    }
    ghost var frames := [src];
    ghost var marks := visited[..];
    Begin(adj, start.idx, marks);

    while true
      invariant 0 <= nbStack < stack.Length
      invariant |frames| == nbStack + 1 && frames[nbStack] == src
      invariant forall i :: 0 <= i < nbStack ==> stack[i] == frames[i]
      invariant visited[..] == marks && SearchOk(adj, start.idx, marks, frames)
      decreases Measure(adj, frames)
    {
      MarkStarted(adj, start.idx, marks, frames);
      visited[src.idx] := Started;
      marks := marks[src.idx := Started];

      if src.stream < |g.filters[src.idx].inputs| {
        var fi := g.filters[src.idx].inputs[src.stream];
        src := src.(stream := src.stream + 1);
        InputSeen(g, adj, src.idx, src.stream - 1);
        var ends, node := SrcFiltergraph(g, fi);
        if !ends {
          MeetEndless(adj, start.idx, marks, frames);
          return Endless;
        }
        if node.ty == Demux {
          PassInput(adj, start.idx, marks, frames);
          MeasurePass(adj, frames);
          frames := Advanced(frames);
          continue;
        }

        if visited[node.idx] == Started {
          MeetStarted(adj, start.idx, marks, frames, node.idx);
          return Loop;
        }

        Descend(adj, start.idx, marks, frames, node.idx);
        MeasureDescend(adj, frames, node.idx);
        ghost var advanced := Advanced(frames);
        assert advanced[nbStack] == src;
        stack[nbStack] := src;
        assert forall i :: 0 <= i < nbStack + 1 ==> stack[i] == advanced[i];
        nbStack := nbStack + 1;
        src := Node(NoType, node.idx, 0);
        frames := advanced + [src];
        continue;
      }

      Finish(adj, start.idx, marks, frames);
      visited[src.idx] := Done;

      if nbStack == 0 {
        return Clear;
      }
      MeasureFinish(adj, frames);
      marks := marks[src.idx := Done];
      frames := frames[..|frames| - 1];
      nbStack := nbStack - 1;
      src := stack[nbStack];
    }
  }

  lemma GraphSeenAs(g: Graph)
    requires Wired(g)
    ensures SeenAs(g, FilterAdjacency(g))
  {
    var adj := FilterAdjacency(g);
    AdjacencyInRange(g);
    forall f, j | 0 <= f < |adj| && 0 <= j < |adj[f]| ensures SeenInput(g, g.filters[f].inputs[j], adj[f][j]) {
      SinkWired(g, Node(FilterIn, f, j));
    }
  }

  /** All filter inputs can be climbed if and only if the search sees no endless one. */
  lemma FedIffAllEnd(g: Graph)
    requires Wired(g)
    ensures FiltersFed(g) <==> AllEnd(FilterAdjacency(g))
  {
    hide Grounded, HasGround, Wired, SourceOk, LoopAbove, Root;
    var adj := FilterAdjacency(g);
    GraphSeenAs(g);
    forall f: nat, j: nat | f < |g.filters| && j < |g.filters[f].inputs|
      ensures Grounded(g, g.filters[f].inputs[j], Codecs(g)) <==> adj[f][j] != Cycles.ENDLESS
    {
      assert SeenInput(g, g.filters[f].inputs[j], adj[f][j]);
      ClimbEndsIff(g, g.filters[f].inputs[j]);
    }
    if !FiltersFed(g) {
      var f: nat, j: nat :| f < |g.filters| && j < |g.filters[f].inputs| && !Grounded(g, g.filters[f].inputs[j], Codecs(g));
      assert HasEndless(adj, f);
    }
    if !AllEnd(adj) {
      var f: nat :| f < |adj| && HasEndless(adj, f);
      var j: nat :| j < |adj[f]| && adj[f][j] == Cycles.ENDLESS;
      assert !Grounded(g, g.filters[f].inputs[j], Codecs(g));
    }
  }

  /** Searches upstream from every filtergraph in turn, until one answers. */
  method CheckAcyclic(g: Graph) returns (found: Outcome)
    requires Wired(g)
    ensures Cycles.InRange(FilterAdjacency(g)) && found == SearchAll(FilterAdjacency(g), 0)
    ensures found == Clear <==> Acyclic(g) && FiltersFed(g)
    ensures Acyclic(g) ==> (found == Endless <==> !FiltersFed(g))
    ensures FiltersFed(g) ==> (found == Loop <==> !Acyclic(g))
  {
    hide Wired, Cycles.InRange, SearchFrom, FiltersFed, Cycles.Acyclic, AllEnd;
    ghost var adj := FilterAdjacency(g);
    GraphSeenAs(g);
    FedIffAllEnd(g);
    SearchMeans(adj);
    var visited := new Mark[|g.filters|](_ => New);
    var stack := new Node[|g.filters|](_ => NO_NODE);
    for i := 0 to |g.filters|
      invariant SearchAll(adj, i) == SearchAll(adj, 0)
    {
      found := CheckAcyclicForOutput(g, Node(NoType, i, 0), adj, visited, stack);
      if found != Clear {
        return;
      }
    }
    return Clear;
  }
}
