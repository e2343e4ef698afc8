/** What callers of the stub see over a whole life of a helper: the peer's
    operations answered in turn, and the captured buffers, none lost. */
module MediaHistories {
  import opened ByteStrings
  import opened MediaStub
  import opened Wrappers
  import A = AudioDevice
  import P = PeerConnection

  // ----- Devices run between calls -----

  function PadEvents(pads: seq<P.Pad>): seq<P.PeerCall>
    decreases |pads|
  {
    if pads == [] then [] else [P.PadArrives(pads[0])] + PadEvents(pads[1..])
  }

  function Captures(arrivals: seq<Bytes>): seq<A.Step>
    decreases |arrivals|
  {
    if arrivals == [] then [] else [A.Capture(arrivals[0])] + Captures(arrivals[1..])
  }

  lemma {:induction false} PadsAreServed(history: seq<P.PeerCall>, pads: seq<P.Pad>)
    ensures var (s, t) := (P.ServeAll(history), P.ServeAll(history + PadEvents(pads)));
            t == s.(peer := PadsArrived(s.peer, pads))
    decreases |pads|
  {
    hide P.ServeAll;
    if pads == [] {
      assert history + PadEvents(pads) == history;
    } else {
      var longer := history + [P.PadArrives(pads[0])];
      PadIsServed(history, pads[0]);
      assert longer + PadEvents(pads[1..]) == history + PadEvents(pads);
      PadsAreServed(longer, pads[1..]);
    }
  }

  lemma PadIsServed(history: seq<P.PeerCall>, pad: P.Pad)
    ensures var (s, t) := (P.ServeAll(history), P.ServeAll(history + [P.PadArrives(pad)]));
            t == s.(peer := P.PadArrived(s.peer, pad))
  {
    assert (history + [P.PadArrives(pad)])[..|history|] == history;
  }

  lemma {:induction false} CapturesAreARun(w: A.World, arrivals: seq<Bytes>)
    ensures A.IsRun(w, Captures(arrivals))
    ensures var t := A.Final(w, Captures(arrivals));
            t.audio == CapturedAll(w.audio, arrivals) && t.reader == w.reader && t.outcomes == w.outcomes
    decreases |arrivals|
  {
    if arrivals != [] {
      var step := A.Capture(arrivals[0]);
      assert Captures(arrivals)[0] == step && Captures(arrivals)[1..] == Captures(arrivals[1..]);
      CapturesAreARun(A.Apply(w, step), arrivals[1..]);
    }
  }

  // ----- Calls of a peer -----

  /** What a library call does to a peer, as the peer sees it. */
  function OnPeer(call: Call, e: Env): seq<P.PeerCall> {
    match call
    case Create(offer) => [P.CallCreate(offer)]
    case Set(sdp, offer, local) => [P.CallSet(sdp, offer, local, e.peer)]
    case Poll(capacity) => [P.CallPoll(capacity, e.peer)]
    case PeerState => [P.CallState(e.peer)]
    case Push(pcm) => [P.CallPush(pcm, e.peer)]
    case _ => []
  }

  function Events(calls: seq<(Call, Env)>): seq<P.PeerCall>
    decreases |calls|
  {
    if calls == [] then []
    else PadEvents(calls[0].1.pads) + OnPeer(calls[0].0, calls[0].1) + Events(calls[1..])
  }

  /** The polls that ended an operation, as their callers saw them. */
  function EndedBy(call: Call, e: Env, open: bool, returned: (int, Bytes)): seq<P.Ended> {
    if call.Poll? && open && e.peer.finished
    then [P.Ended(e.peer.promise, call.capacity, returned.0, returned.1)]
    else []
  }

  function EndedPolls(p: P.Peer, calls: seq<(Call, Env)>, returned: seq<(int, Bytes)>): seq<P.Ended>
    requires AllFit(PeerResource(p), calls) && |returned| == |calls|
    decreases |calls|
  {
    if calls == [] then []
    else
      var (call, e) := calls[0];
      EndedBy(call, e, p.pending.Some?, returned[0])
      + EndedPolls(Direct(PeerResource(p), call, e).0.peer, calls[1..], returned[1..])
  }

  /** One call, after the pads that were announced before it. */
  lemma DirectIsServe(s: P.Served, call: Call, e: Env)
    requires call.OnPeer()
    ensures var ready := s.(peer := PadsArrived(s.peer, e.pads));
            var x := Direct(PeerResource(s.peer), call, e);
            && x.0.PeerResource?
            && (if OnPeer(call, e) == [] then ready else P.Serve(ready, OnPeer(call, e)[0]))
               == P.Served(x.0.peer, s.results + EndedBy(call, e, s.peer.pending.Some?, (x.1, x.2)))
  {
    PendingOutlivesPads(s.peer, e.pads);
    hide PadsArrived;
  }

  lemma ServedOnce(history: seq<P.PeerCall>, event: P.PeerCall)
    ensures P.ServeAll(history + [event]) == P.Serve(P.ServeAll(history), event)
  {
    assert (history + [event])[..|history|] == history;
  }

  lemma CallIsServed(history: seq<P.PeerCall>, call: Call, e: Env)
    requires call.OnPeer()
    ensures var s := P.ServeAll(history);
            var x := Direct(PeerResource(s.peer), call, e);
            && x.0.PeerResource?
            && P.ServeAll(history + PadEvents(e.pads) + OnPeer(call, e))
               == P.Served(x.0.peer, s.results + EndedBy(call, e, s.peer.pending.Some?, (x.1, x.2)))
  {
    hide P.ServeAll, P.Serve, Direct, EndedBy, PadEvents;
    PadsAreServed(history, e.pads);
    DirectIsServe(P.ServeAll(history), call, e);
    var ready := history + PadEvents(e.pads);
    if OnPeer(call, e) == [] {
      assert ready + [] == ready;
    } else {
      ServedOnce(ready, OnPeer(call, e)[0]);
    }
  }

  lemma {:induction false} PendingOutlivesPads(p: P.Peer, pads: seq<P.Pad>)
    ensures PadsArrived(p, pads) == p.(failed := p.failed || exists pad :: pad in pads && pad.Unlinkable())
    decreases |pads|
  {
    if pads != [] {
      PendingOutlivesPads(P.PadArrived(p, pads[0]), pads[1..]);
      assert forall pad :: pad in pads <==> pad == pads[0] || pad in pads[1..];
    }
  }

  lemma {:induction false} RunIsServed(history: seq<P.PeerCall>, calls: seq<(Call, Env)>)
    requires AllFit(PeerResource(P.ServeAll(history).peer), calls)
    ensures var s := P.ServeAll(history);
            var x := DirectRun(PeerResource(s.peer), calls);
            && |x.1| == |calls|
            && x.0.PeerResource?
            && P.ServeAll(history + Events(calls))
               == P.Served(x.0.peer, s.results + EndedPolls(s.peer, calls, x.1))
    decreases |calls|
  {
    hide P.ServeAll, Direct, PadEvents, OnPeer, EndedBy, InLimit;
    if calls == [] {
      assert history + Events(calls) == history;
    } else {
      var (call, e) := calls[0];
      var longer := history + PadEvents(e.pads) + OnPeer(call, e);
      CallIsServed(history, call, e);
      assert Direct(PeerResource(P.ServeAll(history).peer), call, e).0 == PeerResource(P.ServeAll(longer).peer);
      assert longer + Events(calls[1..]) == history + Events(calls);
      RunIsServed(longer, calls[1..]);
    }
  }

  /** Through stub and helper: whatever in-limit calls are made of a new peer, the
      i-th poll that ends an operation returns the outcome of the i-th operation
      that was asked of the pipeline. */
  lemma StubAnswersInTurn(calls: seq<(Call, Env)>)
    requires AllFit(PeerResource(P.NewPeer), calls)
    ensures var x := RemoteRun(PeerResource(P.NewPeer), calls);
            && x.Some? && x.value.0.PeerResource? && |x.value.1| == |calls|
            && P.AnsweredInTurn(P.Served(x.value.0.peer, EndedPolls(P.NewPeer, calls, x.value.1)))
            && x.value.0.peer == P.ServeAll(Events(calls)).peer
  {
    StubRunsRefineLibrary(PeerResource(P.NewPeer), calls);
    assert P.ServeAll([]) == P.Served(P.NewPeer, []);
    hide P.ServeAll, RemoteRun, DirectRun, Events, EndedPolls, P.AnsweredInTurn, AllFit;
    assert [] + Events(calls) == Events(calls);
    RunIsServed([], calls);
    P.OperationsAreAnsweredInTurn(Events(calls));
  }

  // ----- Calls of a capture device -----

  /** What a library call does to a device, as the device sees it. */
  function OnDevice(failed: bool, call: Call, e: Env): seq<A.Step> {
    match call
    case Read(capacity) => A.ReadSteps(failed, capacity, e.busError, e.extracts)
    case AudioState => if e.busError then [A.BusError] else []
    case _ => []
  }

  lemma {:induction false} RunsConcat(w: A.World, first: seq<A.Step>, second: seq<A.Step>)
    requires A.IsRun(w, first) && A.IsRun(A.Final(w, first), second)
    ensures A.IsRun(w, first + second) && A.Final(w, first + second) == A.Final(A.Final(w, first), second)
    decreases |first|
  {
    if first == [] {
      assert first + second == second;
    } else {
      RunsConcat(A.Apply(w, first[0]), first[1..], second);
      assert (first + second)[1..] == first[1..] + second;
    }
  }

  lemma CallIsARun(w: A.World, call: Call, e: Env) returns (steps: seq<A.Step>)
    requires w.audio.capture && w.reader.Resting? && !call.OnPeer()
    ensures A.IsRun(w, steps)
    ensures var (t, x) := (A.Final(w, steps), Direct(AudioResource(w.audio), call, e));
            && x.0 == AudioResource(t.audio) && t.reader.Resting? && t.audio.capture
            && |t.outcomes| == |w.outcomes| + (if call.Read? then 1 else 0) && w.outcomes <= t.outcomes
            && (call.Read? ==> t.outcomes[|w.outcomes|].result == x.1 && t.outcomes[|w.outcomes|].output == x.2)
            && (call.AudioState? ==> x.1 == if t.audio.failed then -1 else 1)
            && (call.Write? ==> x.1 == -1)
  {
    var first := Captures(e.arrivals);
    CapturesAreARun(w, e.arrivals);
    var ready := A.Final(w, first);
    var second := OnDevice(ready.audio.failed, call, e);
    if call.Read? {
      A.ReadAloneIsARun(ready, call.capacity, e.busError, e.extracts);
    } else if second != [] {
      assert second[1..] == [];
    }
    RunsConcat(w, first, second);
    steps := first + second;
  }

  /** The reads among some calls, as their callers saw them. */
  function ReadResults(calls: seq<(Call, Env)>, returned: seq<(int, Bytes)>): seq<(int, Bytes)>
    requires |calls| == |returned|
    decreases |calls|
  {
    if calls == [] then []
    else (if calls[0].0.Read? then [returned[0]] else []) + ReadResults(calls[1..], returned[1..])
  }

  function Returns(outcomes: seq<A.Outcome>): (r: seq<(int, Bytes)>)
    ensures |r| == |outcomes|
  {
    seq(|outcomes|, i requires 0 <= i < |outcomes| => (outcomes[i].result, outcomes[i].output))
  }

  lemma NoSteps(w: A.World) returns (steps: seq<A.Step>)
    ensures A.IsRun(w, steps) && A.Final(w, steps) == w
  {
    steps := [];
  }

  lemma {:induction false} CallsAreARun(w: A.World, calls: seq<(Call, Env)>) returns (steps: seq<A.Step>)
    requires w.audio.capture && w.reader.Resting? && AllFit(AudioResource(w.audio), calls)
    ensures A.IsRun(w, steps)
    ensures var (t, x) := (A.Final(w, steps), DirectRun(AudioResource(w.audio), calls));
            && x.0 == AudioResource(t.audio) && t.reader.Resting? && |x.1| == |calls|
            && Returns(t.outcomes) == Returns(w.outcomes) + ReadResults(calls, x.1)
    decreases |calls|
  {
    hide A.IsRun, A.Final, A.Apply, Direct;
    if calls == [] {
      steps := NoSteps(w);
    } else {
      var (call, e) := calls[0];
      var first := CallIsARun(w, call, e);
      var t := A.Final(w, first);
      var second := CallsAreARun(t, calls[1..]);
      RunsConcat(w, first, second);
      steps := first + second;
      var x := Direct(AudioResource(w.audio), call, e);
      assert Returns(t.outcomes) == Returns(w.outcomes) + if call.Read? then [(x.1, x.2)] else [];
    }
  }

  /** Nothing is in a resting reader's hand. */
  lemma ConservedAtRest(steps: seq<A.Step>)
    requires A.IsRun(A.Beginning, steps) && A.Final(A.Beginning, steps).reader.Resting?
    ensures var w := A.Final(A.Beginning, steps);
            w.accepted == A.Taken(w.outcomes) + w.audio.captured && forall o | o in w.outcomes :: A.Honest(o)
  {
    A.CaptureQueueConserves(steps);
    hide A.IsRun, A.Final, A.Taken, A.Honest, A.Total;
    var w := A.Final(A.Beginning, steps);
    assert A.Taken(w.outcomes) + [] + w.audio.captured == A.Taken(w.outcomes) + w.audio.captured;
  }

  lemma NothingBefore(later: seq<(int, Bytes)>)
    ensures Returns(A.Beginning.outcomes) + later == later
  {
  }

  /** Through stub and helper: whatever in-limit calls are made of a capture
      device, there is a run of the device with the same reads, in which accepted
      buffers are, in order, those the reads took and those still queued. */
  lemma StubReadsAreARun(calls: seq<(Call, Env)>) returns (steps: seq<A.Step>)
    requires AllFit(AudioResource(A.Opened(true)), calls)
    ensures A.IsRun(A.Beginning, steps)
    ensures var (w, x) := (A.Final(A.Beginning, steps), RemoteRun(AudioResource(A.Opened(true)), calls));
            && x.Some? && x.value.0 == AudioResource(w.audio) && |x.value.1| == |calls|
            && ReadResults(calls, x.value.1) == Returns(w.outcomes)
            && w.accepted == A.Taken(w.outcomes) + w.audio.captured
            && forall o | o in w.outcomes :: A.Honest(o)
  {
    assert A.Beginning.audio == A.Opened(true) && A.Beginning.audio.capture && A.Beginning.reader.Resting?;
    hide *;
    var device := AudioResource(A.Opened(true));
    StubRunsRefineLibrary(device, calls);
    steps := CallsAreARun(A.Beginning, calls);
    NothingBefore(ReadResults(calls, DirectRun(device, calls).1));
    ConservedAtRest(steps);
  }
}
