/**
 The choke flags of the thread queues between tasks, and how they follow the state
 of the demuxers in front of them.
 */
module QueueChokes {
  import opened Topology

  /**
   Choke flags. `decSent` says that the sending side of a decoder queue has finished; `released`
   records that finishing found the queue choked, until something sets its flag again.
   */
  datatype Queues = Queues(dec: seq<bool>, decSent: seq<bool>, released: seq<bool>, enc: seq<bool>, filters: seq<bool>)

  predicate QueuesOk(g: Graph, q: Queues) {
    |q.dec| == |q.decSent| == |q.released| == |g.dec| && |q.enc| == |g.enc| && |q.filters| == |g.filters|
  }

  /** Some stream of a demuxer has node `k` of type `ty` as its first destination. */
  ghost predicate FeedsFirst(streams: seq<seq<Node>>, ty: NodeType, k: nat) {
    exists s :: 0 <= s < |streams| && |streams[s]| > 0 && streams[s][0].ty == ty && streams[s][0].idx == k
  }

  /**
   The queue of a decoder fed first by a demuxer shows that demuxer's state, except exactly when
   finishing it has released it from a choked demuxer whose state has not changed since.
   */
  ghost predicate QueuesFollow(g: Graph, demuxChoked: seq<bool>, q: Queues) {
    && |demuxChoked| == |g.demux| && QueuesOk(g, q)
    && (forall k: nat :: k < |g.dec| && q.released[k] ==> q.decSent[k] && !q.dec[k])
    && forall d: nat, k: nat :: d < |g.demux| && k < |g.dec| && FeedsFirst(g.demux[d], Dec, k) ==>
         (q.dec[k] != demuxChoked[d] <==> q.released[k])
  }

  /** The flags of the queues right behind `streams` become `choked`; the others stay. */
  ghost predicate Frozen(g: Graph, streams: seq<seq<Node>>, choked: bool, q: Queues, r: Queues) {
    && QueuesOk(g, q) && QueuesOk(g, r) && r.decSent == q.decSent
    && (forall k: nat :: k < |g.dec| ==> r.released[k] == (!FeedsFirst(streams, Dec, k) && q.released[k]))
    && (forall k: nat :: k < |g.dec| ==> r.dec[k] == if FeedsFirst(streams, Dec, k) then choked else q.dec[k])
    && (forall k: nat :: k < |g.enc| ==> r.enc[k] == if FeedsFirst(streams, Enc, k) then choked else q.enc[k])
    && (forall k: nat :: k < |g.filters| ==>
          r.filters[k] == if FeedsFirst(streams, FilterIn, k) && |g.filters[k].inputs| == 1 then choked else q.filters[k])
  }

  lemma OneFeeder(g: Graph, d: nat, e: nat, k: nat)
    requires Wired(g) && d < |g.demux| && e < |g.demux|
    requires FeedsFirst(g.demux[d], Dec, k) && FeedsFirst(g.demux[e], Dec, k)
    ensures d == e
  {
    DemuxOutputs(g, d);
    DemuxOutputs(g, e);
  }

  lemma FeedsOneMore(streams: seq<seq<Node>>, i: nat)
    requires i < |streams| && |streams[i]| > 0
    ensures forall ty: NodeType, k: nat ::
      FeedsFirst(streams[..i + 1], ty, k) <==>
      FeedsFirst(streams[..i], ty, k) || (streams[i][0].ty == ty && streams[i][0].idx == k)
  {
    forall ty: NodeType, k: nat
      ensures FeedsFirst(streams[..i + 1], ty, k) <==>
              FeedsFirst(streams[..i], ty, k) || (streams[i][0].ty == ty && streams[i][0].idx == k)
    {
      var a, b := streams[..i], streams[..i + 1];
      assert forall s :: 0 <= s < i ==> b[s] == a[s];
      assert b[i] == streams[i];
    }
  }

  lemma FrozenNone(g: Graph, streams: seq<seq<Node>>, choked: bool, q: Queues)
    requires QueuesOk(g, q)
    ensures Frozen(g, streams[..0], choked, q, q)
  {
  }

  lemma FrozenOneMore(g: Graph, streams: seq<seq<Node>>, i: nat, choked: bool, q: Queues, r: Queues, r': Queues)
    requires i < |streams| && |streams[i]| > 0 && SinkOk(g, streams[i][0])
    requires Frozen(g, streams[..i], choked, q, r)
    requires var n := streams[i][0];
      r' == match n.ty
            case Dec => r.(dec := r.dec[n.idx := choked], released := r.released[n.idx := false])
            case Enc => r.(enc := r.enc[n.idx := choked])
            case FilterIn => if |g.filters[n.idx].inputs| == 1 then r.(filters := r.filters[n.idx := choked]) else r
            case _ => r
    ensures Frozen(g, streams[..i + 1], choked, q, r')
  {
    hide FeedsFirst;
    FeedsOneMore(streams, i);
  }

  /** Changing one demuxer together with the queues right behind it keeps the correspondence. */
  lemma FollowChange(g: Graph, d: nat, choked: bool, demuxChoked: seq<bool>, q: Queues, r: Queues)
    requires Wired(g) && d < |g.demux| && QueuesFollow(g, demuxChoked, q)
    requires Frozen(g, g.demux[d], choked, q, r)
    ensures QueuesFollow(g, demuxChoked[d := choked], r)
    ensures r.enc == q.enc && r.filters == q.filters
  {
    DemuxOutputs(g, d);
    assert forall k: nat :: !FeedsFirst(g.demux[d], Enc, k) && !FeedsFirst(g.demux[d], FilterIn, k);
    hide Wired, FeedsFirst;
    var after := demuxChoked[d := choked];
    forall e: nat, k: nat | e < |g.demux| && k < |g.dec| && FeedsFirst(g.demux[e], Dec, k)
      ensures r.dec[k] != after[e] <==> r.released[k]
    {
      if FeedsFirst(g.demux[d], Dec, k) {
        OneFeeder(g, d, e, k);
      }
    }
  }

  /** Finishes the sending side of a decoder queue, which also releases it. */
  function Finished(q: Queues, k: nat): Queues
    requires k < |q.dec| && k < |q.decSent| && k < |q.released|
  {
    q.(dec := q.dec[k := false], decSent := q.decSent[k := true], released := q.released[k := q.released[k] || q.dec[k]])
  }

  /** The correspondence is kept; the finished queue now differs exactly if its demuxer is choked. */
  lemma FollowFinish(g: Graph, demuxChoked: seq<bool>, q: Queues, k: nat)
    requires QueuesFollow(g, demuxChoked, q) && k < |g.dec|
    ensures QueuesFollow(g, demuxChoked, Finished(q, k))
    ensures forall d: nat :: d < |g.demux| && FeedsFirst(g.demux[d], Dec, k) ==>
      (Finished(q, k).dec[k] != demuxChoked[d] <==> demuxChoked[d])
  {
  }
}
