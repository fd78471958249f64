/**
 When a muxer is initialised and when its task starts: after all its streams are ready,
 and, if a session description is wanted, only after every muxer has been initialised.
 Every method here runs under the scheduler's muxer-ready lock, or before any task runs.
 */
module MuxStartup {

  function Count(s: seq<bool>): nat {
    if s == [] then 0 else Count(s[..|s| - 1]) + if s[|s| - 1] then 1 else 0
  }

  lemma {:induction false} CountSet(s: seq<bool>, i: nat)
    requires i < |s| && !s[i]
    ensures Count(s[i := true]) == Count(s) + 1
  {
    var m := |s| - 1;
    var t := s[i := true];
    if i == m {
      assert t[..m] == s[..m];
    } else {
      assert t[..m] == s[..m][i := true];
      CountSet(s[..m], i);
    }
  }

  lemma {:induction false} CountAll(s: seq<bool>)
    ensures Count(s) <= |s|
    ensures Count(s) == |s| <==> forall i :: 0 <= i < |s| ==> s[i]
  {
    if s != [] {
      CountAll(s[..|s| - 1]);
      if forall i :: 0 <= i < |s| ==> s[i] {
        assert forall i :: 0 <= i < |s| - 1 ==> s[..|s| - 1][i] == s[i];
      }
    }
  }

  lemma {:induction false} CountNone(n: nat)
    ensures Count(seq(n, _ => false)) == 0
  {
    if n > 0 {
      assert seq(n, _ => false)[..n - 1] == seq(n - 1, _ => false);
      CountNone(n - 1);
    }
  }

  /** What the calls outside the scheduler answer: muxer initialisation, task start, description. */
  datatype World = World(initOk: nat -> bool, startOk: nat -> bool, sdpOk: bool)

  /** Nothing outside the scheduler fails. */
  ghost predicate Kind(w: World) {
    w.sdpOk && (forall i: nat :: w.initOk(i)) && forall i: nat :: w.startOk(i)
  }

  predicate AllSet(s: seq<bool>) {
    forall i :: 0 <= i < |s| ==> s[i]
  }

  predicate AllStart(n: nat, w: World) {
    forall i: nat :: i < n ==> w.startOk(i)
  }

  class Startup {
    const nbStreams: seq<nat>
    const wantSdp: bool

    var nbStreamsReady: seq<nat>
    var nbMuxReady: nat
    var running: bool

    // history: how often each muxer was initialised and its task started
    var inits: seq<nat>
    var initOk: seq<bool>
    var starts: seq<nat>
    ghost var failed: bool

    constructor (streams: seq<nat>, sdp: bool)
      ensures Valid() && nbStreams == streams && wantSdp == sdp && !running && !failed
    {
      var n := |streams|;
      nbStreams, wantSdp := streams, sdp;
      nbStreamsReady, nbMuxReady, running := seq(n, _ => 0), 0, false;
      inits, initOk, starts := seq(n, _ => 0), seq(n, _ => false), seq(n, _ => 0);
      failed := false;
      CountNone(n);
    }

    predicate Complete(i: nat)
      requires |nbStreamsReady| == |nbStreams| && i < |nbStreams|
      reads this
    {
      nbStreamsReady[i] == nbStreams[i]
    }

    ghost predicate Shape()
      reads this
    {
      |nbStreamsReady| == |inits| == |initOk| == |starts| == |nbStreams|
    }

    /** The promises that hold throughout. */
    ghost predicate Valid()
      reads this
    {
      && Shape() && nbMuxReady == Count(initOk)
      && (forall i :: 0 <= i < |nbStreams| ==> nbStreamsReady[i] <= nbStreams[i])
      // a muxer is initialised at most once, after all its streams are ready
      && (forall i :: 0 <= i < |nbStreams| ==> inits[i] <= 1)
      && (forall i :: 0 <= i < |nbStreams| && inits[i] == 1 ==> running && Complete(i))
      // its task starts at most once, after its own initialisation succeeded
      && (forall i :: 0 <= i < |nbStreams| && initOk[i] ==> inits[i] == 1)
      && (forall i :: 0 <= i < |nbStreams| ==> starts[i] <= 1)
      && (forall i :: 0 <= i < |nbStreams| && starts[i] == 1 ==> initOk[i])
      // with a session description, only after every initialisation succeeded
      && (wantSdp ==> forall i, j :: 0 <= i < |nbStreams| && 0 <= j < |nbStreams| && starts[i] == 1 ==> initOk[j])
    }

    /** What is promised beyond that as long as nothing has failed: nobody is forgotten. */
    ghost predicate Prompt()
      requires Shape()
      reads this
    {
      && (forall i :: 0 <= i < |nbStreams| ==> (initOk[i] <==> running && Complete(i)))
      && (forall i :: 0 <= i < |nbStreams| ==>
            (starts[i] == 1 <==> initOk[i] && (wantSdp ==> forall j :: 0 <= j < |nbStreams| ==> initOk[j])))
    }

    /** Starts the task of muxer `i`. */
    method TaskStart(i: nat, w: World) returns (ok: bool)
      requires Shape() && i < |nbStreams|
      modifies this`starts
      ensures ok == w.startOk(i) && starts == if ok then old(starts)[i := old(starts[i]) + 1] else old(starts)
    {
      ok := w.startOk(i);
      if ok {
        starts := starts[i := starts[i] + 1];
      }
    }

    /** Starts the tasks of all muxers, once all are initialised. */
    method StartAll(w: World) returns (ok: bool)
      requires Valid() && wantSdp
      requires forall i :: 0 <= i < |nbStreams| ==> initOk[i] && starts[i] == 0
      modifies this`starts
      ensures Valid()
      ensures ok <==> AllStart(|nbStreams|, w)
      ensures ok ==> forall i :: 0 <= i < |nbStreams| ==> starts[i] == 1
      ensures forall i: nat :: i < |nbStreams| ==> (starts[i] == 1 <==> AllStart(i + 1, w))
    {
      ok := true;
      for j := 0 to |nbStreams|
        invariant Valid() && ok && AllStart(j, w)
        invariant forall k :: 0 <= k < |nbStreams| ==> starts[k] == if k < j then 1 else 0
      {
        ok := TaskStart(j, w);
        if !ok {
          return;
        }
      }
    }

    /**
     What initialising muxer `i` takes: its own initialisation, and then the start of its task, or,
     with a session description and once all muxers are initialised, the description and all tasks.
     */
    predicate Succeeds(i: nat, w: World)
      requires i < |initOk|
      reads this
    {
      && w.initOk(i)
      && (!wantSdp ==> w.startOk(i))
      && (wantSdp && AllSet(initOk[i := true]) ==> w.sdpOk && AllStart(|nbStreams|, w))
    }

    /** Initialises muxer `i` and starts whatever may start now. */
    method MuxInit(i: nat, w: World) returns (ok: bool)
      requires Valid() && i < |nbStreams| && running && Complete(i) && inits[i] == 0
      modifies this`inits, this`initOk, this`nbMuxReady, this`starts
      ensures Valid() && inits == old(inits)[i := 1]
      ensures initOk == if w.initOk(i) then old(initOk)[i := true] else old(initOk)
      ensures ok <==> old(Succeeds(i, w))
      // the tasks that have been started
      ensures !w.initOk(i) ==> starts == old(starts)
      ensures w.initOk(i) && !wantSdp ==> starts == if w.startOk(i) then old(starts)[i := 1] else old(starts)
      ensures w.initOk(i) && wantSdp && !(AllSet(initOk) && w.sdpOk) ==> starts == old(starts)
      ensures w.initOk(i) && wantSdp && AllSet(initOk) && w.sdpOk ==>
        forall j: nat :: j < |nbStreams| ==> (starts[j] == 1 <==> AllStart(j + 1, w))
      ensures ok && wantSdp ==>
        forall j :: 0 <= j < |nbStreams| ==>
          starts[j] == if forall k :: 0 <= k < |nbStreams| ==> initOk[k] then 1 else old(starts[j])
      ensures ok && !wantSdp ==> starts == old(starts)[i := 1]
      ensures ok ==> initOk[i]
    {
      hide Count, AllStart;
      inits := inits[i := inits[i] + 1];
      ok := w.initOk(i);
      if !ok {
        return;
      }
      CountSet(initOk, i);
      initOk := initOk[i := true];
      nbMuxReady := nbMuxReady + 1;
      CountAll(initOk);

      if wantSdp {
        if nbMuxReady < |nbStreams| {
          return true;
        }
        ok := w.sdpOk;
        if !ok {
          return;
        }
        ok := StartAll(w);
      } else {
        ok := TaskStart(i, w);
      }
    }

    /** One more stream of muxer `i` is ready; this may be called before `Start`. */
    method StreamReady(i: nat, w: World) returns (ok: bool)
      requires Valid() && i < |nbStreams| && nbStreamsReady[i] < nbStreams[i]
      requires !failed ==> Prompt()
      modifies this
      ensures Valid() && running == old(running)
      ensures nbStreamsReady == old(nbStreamsReady)[i := old(nbStreamsReady[i]) + 1]
      ensures !failed ==> !old(failed) && ok && Prompt()
      ensures failed <==> old(failed) || !ok
      ensures ok <==> !(old(running) && old(nbStreamsReady[i]) + 1 == nbStreams[i]) || old(Succeeds(i, w))
      ensures Kind(w) ==> ok && failed == old(failed)
    {
      hide Count;
      nbStreamsReady := nbStreamsReady[i := nbStreamsReady[i] + 1];
      ok := true;
      if nbStreamsReady[i] == nbStreams[i] && running {
        ok := MuxInit(i, w);
      }
      failed := failed || !ok;
    }

    /** What starting takes: the initialisation of every complete muxer, and all that follows from it. */
    ghost predicate StartSucceeds(w: World)
      requires Shape()
      reads this
    {
      && (forall i: nat :: i < |nbStreams| && Complete(i) ==> w.initOk(i) && (!wantSdp ==> w.startOk(i)))
      && (wantSdp && |nbStreams| > 0 && (forall i: nat :: i < |nbStreams| ==> Complete(i)) ==>
            w.sdpOk && AllStart(|nbStreams|, w))
    }

    /** The scheduler starts: muxers that are complete already are initialised now. */
    method Start(w: World) returns (ok: bool)
      requires Valid() && !running && !failed
      modifies this
      ensures Valid() && running && nbStreamsReady == old(nbStreamsReady)
      ensures !failed ==> ok && Prompt()
      ensures ok <==> !failed
      ensures ok <==> StartSucceeds(w)
      ensures Kind(w) ==> ok
    {
      hide Count;
      running := true;
      for i := 0 to |nbStreams|
        invariant Valid() && running && !failed && nbStreamsReady == old(nbStreamsReady)
        invariant forall j :: 0 <= j < |nbStreams| ==> (initOk[j] <==> j < i && Complete(j))
        invariant forall j :: i <= j < |nbStreams| ==> inits[j] == 0
        invariant forall j :: 0 <= j < |nbStreams| ==>
          (starts[j] == 1 <==> initOk[j] && (wantSdp ==> forall k :: 0 <= k < |nbStreams| ==> initOk[k]))
        invariant forall j: nat :: j < i && Complete(j) ==> w.initOk(j) && (!wantSdp ==> w.startOk(j))
        invariant wantSdp && i == |nbStreams| > 0 && (forall j: nat :: j < i ==> Complete(j)) ==>
          w.sdpOk && AllStart(|nbStreams|, w)
      {
        if nbStreamsReady[i] == nbStreams[i] {
          ok := MuxInit(i, w);
          if !ok {
            failed := true;
            return;
          }
        }
      }
      return true;
    }
  }
}
