/** The peer object of the media library: one pending operation at a time over
    a WebRTC pipeline that is not modelled.  Whatever the pipeline answers to a
    call is the call's `Answers`; what the library asks of it is the log. */
module PeerConnection {
  import opened ByteStrings
  import opened Wrappers

  const MAX_DESCRIPTION: int := 65536
  const MAX_PUSH: int := 24000
  const MAX_LEVEL: int := 48000

  datatype Request =
    | CreateOffer
    | CreateAnswer
    | SetDescription(sdp: Bytes, offer: bool, local: bool)
    | PushBuffer(pcm: Bytes)

  datatype Field = Offer | Answer

  /** How a promise ended.  A reply may lack the described field; its text is
      whatever the pipeline renders. */
  datatype Promise = NotReplied | RepliedError | RepliedNothing | Replied(text: Option<Bytes>)

  datatype Connection = Connecting | Connected | Lost

  datatype Answers = Answers(
    allocates: bool,
    parses: bool,
    finished: bool,
    promise: Promise,
    gathered: bool,
    local: Option<Bytes>,
    trouble: bool,
    connection: Connection,
    level: nat,
    flows: bool,
    sample: Option<Bytes>)

  /** A pad that the pipeline announces: whether it is a source, whether the
      receiver is linked already, and whether linking the two would succeed. */
  datatype Pad = Pad(source: bool, taken: bool, links: bool) {
    predicate Unlinkable() { source && (taken || !links) }
  }

  datatype Peer = Peer(pending: Option<Option<Field>>, failed: bool, log: seq<Request>)

  const NewPeer: Peer := Peer(None, false, [])

  predicate Text(sdp: Bytes) { 0 !in sdp }

  function CreateDescription(p: Peer, offer: bool): (Peer, int) {
    if p.pending.Some? then (p, 0)
    else (p.(pending := Some(Some(if offer then Offer else Answer)),
             log := p.log + [if offer then CreateOffer else CreateAnswer]), 1)
  }

  function SetDescriptionTo(p: Peer, sdp: Bytes, offer: bool, local: bool, e: Answers): (Peer, int) {
    if |sdp| > MAX_DESCRIPTION || sdp == [] || p.pending.Some? || !e.allocates || !e.parses then (p, 0)
    else (p.(pending := Some(None), log := p.log + [SetDescription(sdp, offer, local)]), 1)
  }

  function CopyDescription(text: Option<Bytes>, capacity: nat): (int, Bytes) {
    match text
    case None => (-1, [])
    case Some(t) => if t != [] && |t| <= MAX_DESCRIPTION && |t| <= capacity then (|t|, t) else (-1, [])
  }

  function Finish(field: Option<Field>, promise: Promise, capacity: nat): (int, Bytes) {
    match promise
    case NotReplied => (-1, [])
    case RepliedError => (-1, [])
    case RepliedNothing => if capacity > 0 then (1, [0]) else (-1, [])
    case Replied(text) =>
      if field.Some? then CopyDescription(text, capacity)
      else if capacity > 0 then (1, [0]) else (-1, [])
  }

  /** 0 pending, 1 complete, -1 failed; a created description's byte count. */
  function Operation(p: Peer, capacity: nat, e: Answers): (Peer, int, Bytes) {
    if p.pending.None? then (p, -1, [])
    else if !e.finished then (p, 0, [])
    else
      var r := Finish(p.pending.value, e.promise, capacity);
      (p.(pending := None), r.0, r.1)
  }

  function LocalDescription(capacity: nat, e: Answers): (int, Bytes) {
    if !e.gathered then (0, []) else CopyDescription(e.local, capacity)
  }

  function ConnectionState(p: Peer, e: Answers): (Peer, int) {
    var q := p.(failed := p.failed || e.trouble);
    (q, if q.failed || e.connection.Lost? then -1 else if e.connection.Connected? then 1 else 0)
  }

  /** The pipeline's own thread announces pads, whether or not anybody calls. */
  function PadArrived(p: Peer, pad: Pad): Peer {
    p.(failed := p.failed || pad.Unlinkable())
  }

  predicate Pushable(length: nat, level: nat) {
    length > 0 && length <= MAX_PUSH && length % 2 == 0 && level + length <= MAX_LEVEL
  }

  function Push(p: Peer, pcm: Bytes, e: Answers): (Peer, int) {
    if !Pushable(|pcm|, e.level) || !e.allocates then (p, 0)
    else (p.(log := p.log + [PushBuffer(pcm)]), if e.flows then 1 else 0)
  }

  function Pull(capacity: nat, e: Answers): (int, Bytes) {
    match e.sample
    case None => (0, [])
    case Some(b) => if b != [] && |b| <= capacity && |b| % 2 == 0 then (|b|, b) else (-1, [])
  }

  class AgentPeer {
    var pending: Option<Option<Field>>
    var failed: bool
    var log: seq<Request>

    ghost function Model(): Peer
      reads this
    {
      Peer(pending, failed, log)
    }

    constructor ()
      ensures Model() == NewPeer
    {
      pending, failed, log := None, false, [];
    }

    method Begin(field: Option<Field>) returns (began: bool)
      modifies this`pending
      ensures began <==> old(pending).None?
      ensures pending == if began then Some(field) else old(pending)
    {
      if pending.Some? { return false; }
      pending := Some(field);
      began := true;
    }

    method Create(offer: bool) returns (result: int)
      modifies this
      ensures (Model(), result) == CreateDescription(old(Model()), offer)
    {
      var began := Begin(Some(if offer then Offer else Answer));
      if !began { return 0; }
      log := log + [if offer then CreateOffer else CreateAnswer];
      result := 1;
    }

    method Set(sdp: Bytes, offer: bool, local: bool, e: Answers) returns (result: int)
      modifies this
      ensures (Model(), result) == SetDescriptionTo(old(Model()), sdp, offer, local, e)
    {
      if |sdp| > MAX_DESCRIPTION || sdp == [] || pending.Some? { return 0; }
      if !e.allocates || !e.parses { return 0; }
      var began := Begin(None);
      log := log + [SetDescription(sdp, offer, local)];
      result := 1;
    }

    method Poll(capacity: nat, e: Answers) returns (result: int, output: Bytes)
      modifies this
      ensures (Model(), result, output) == Operation(old(Model()), capacity, e)
    {
      if pending.None? { return -1, []; }
      if !e.finished { return 0, []; }
      var r := Finish(pending.value, e.promise, capacity);
      pending := None;
      result, output := r.0, r.1;
    }

    method State(e: Answers) returns (result: int)
      modifies this
      ensures (Model(), result) == ConnectionState(old(Model()), e)
    {
      if e.trouble { failed := true; }
      if failed || e.connection.Lost? { return -1; }
      result := if e.connection.Connected? then 1 else 0;
    }

    /** The pad-added callback. */
    method Incoming(pad: Pad)
      modifies this`failed
      ensures Model() == PadArrived(old(Model()), pad)
    {
      if !pad.source { return; }
      if pad.taken || !pad.links { failed := true; }
    }

    method PushPcm(pcm: Bytes, e: Answers) returns (result: int)
      modifies this
      ensures (Model(), result) == Push(old(Model()), pcm, e)
    {
      if !Pushable(|pcm|, e.level) || !e.allocates { return 0; }
      log := log + [PushBuffer(pcm)];
      result := if e.flows then 1 else 0;
    }
  }

  // ----- Every operation is answered once -----

  /** What happens to a peer: calls, and pads that the pipeline announces. */
  datatype PeerCall =
    | CallCreate(offer: bool)
    | CallSet(sdp: Bytes, offer: bool, local: bool, e: Answers)
    | CallPoll(capacity: nat, e: Answers)
    | CallState(e: Answers)
    | CallPush(pcm: Bytes, e: Answers)
    | PadArrives(pad: Pad)

  /** A poll that ended an operation: how the promise ended, the caller's
      buffer, and what the poll returned. */
  datatype Ended = Ended(promise: Promise, capacity: nat, result: int, output: Bytes)

  /** A peer and the final polls it answered, oldest first. */
  datatype Served = Served(peer: Peer, results: seq<Ended>)

  function Serve(s: Served, call: PeerCall): Served {
    match call
    case CallCreate(offer) => s.(peer := CreateDescription(s.peer, offer).0)
    case CallSet(sdp, offer, local, e) => s.(peer := SetDescriptionTo(s.peer, sdp, offer, local, e).0)
    case CallPoll(capacity, e) =>
      var x := Operation(s.peer, capacity, e);
      Served(x.0, if s.peer.pending.Some? && x.1 != 0 then s.results + [Ended(e.promise, capacity, x.1, x.2)]
                  else s.results)
    case CallState(e) => s.(peer := ConnectionState(s.peer, e).0)
    case CallPush(pcm, e) => s.(peer := Push(s.peer, pcm, e).0)
    case PadArrives(pad) => s.(peer := PadArrived(s.peer, pad))
  }

  function ServeAll(calls: seq<PeerCall>): Served {
    if calls == [] then Served(NewPeer, []) else Serve(ServeAll(calls[..|calls| - 1]), calls[|calls| - 1])
  }

  /** The operations asked of the pipeline, by the description they are to yield. */
  function Asked(log: seq<Request>): seq<Option<Field>> {
    if log == [] then []
    else
      Asked(log[..|log| - 1]) + match log[|log| - 1]
        case CreateOffer => [Some(Offer)]
        case CreateAnswer => [Some(Answer)]
        case SetDescription(_, _, _) => [None]
        case PushBuffer(_) => []
  }

  /** A description of 1 to 65536 bytes that fits the caller's buffer. */
  predicate Copyable(text: Option<Bytes>, capacity: nat) {
    text.Some? && 1 <= |text.value| <= 65536 && |text.value| <= capacity
  }

  /** What the end of an operation that was to yield a description of `field`, or
      to set one, means: an interrupted or refused operation fails, an
      acknowledged one returns 1 and an empty string, and a description is
      returned whole or not at all. */
  predicate Fitting(field: Option<Field>, end: Ended) {
    if end.promise.NotReplied? || end.promise.RepliedError? then end.result == -1 && end.output == []
    else if end.promise.Replied? && field.Some? then
      if Copyable(end.promise.text, end.capacity)
      then Some(end.output) == end.promise.text && end.result == |end.output|
      else end.result == -1 && end.output == []
    else if end.capacity == 0 then end.result == -1 && end.output == []
    else end.result == 1 && end.output == [0]
  }

  ghost predicate AnsweredInTurn(s: Served) {
    var asked := Asked(s.peer.log);
    && |asked| == |s.results| + (if s.peer.pending.Some? then 1 else 0)
    && (s.peer.pending.Some? ==> asked[|asked| - 1] == s.peer.pending.value)
    && forall i | 0 <= i < |s.results| :: Fitting(asked[i], s.results[i])
  }

  lemma AskedExtends(log: seq<Request>, r: Request)
    ensures Asked(log + [r]) == Asked(log) + Asked([r])
    ensures r.PushBuffer? ==> Asked([r]) == []
    ensures !r.PushBuffer? ==> |Asked([r])| == 1
  {
    assert (log + [r])[..|log|] == log;
    assert [r][..0] == [];
  }

  lemma ServeKeepsTurns(s: Served, call: PeerCall)
    requires AnsweredInTurn(s)
    ensures AnsweredInTurn(Serve(s, call))
  {
    if call.CallPoll? {
      PollKeepsTurns(s, call);
    } else {
      var t := Serve(s, call);
      if t.peer.log != s.peer.log {
        var r := t.peer.log[|s.peer.log|];
        assert t.peer.log == s.peer.log + [r];
        AskedExtends(s.peer.log, r);
      }
      hide Fitting, Asked;
    }
  }

  lemma FinishFits(field: Option<Field>, promise: Promise, capacity: nat)
    ensures var x := Finish(field, promise, capacity);
            x.0 != 0 && Fitting(field, Ended(promise, capacity, x.0, x.1))
  {
  }

  lemma PollKeepsTurns(s: Served, call: PeerCall)
    requires AnsweredInTurn(s) && call.CallPoll?
    ensures AnsweredInTurn(Serve(s, call))
  {
    hide Fitting, Finish, Asked;
    if s.peer.pending.Some? && call.e.finished {
      FinishFits(s.peer.pending.value, call.e.promise, call.capacity);
    }
  }

  /** Over any calls, the i-th final poll result answers the i-th operation asked
      of the pipeline; at most the last one is still open, and it is the pending
      one. */
  lemma {:induction false} OperationsAreAnsweredInTurn(calls: seq<PeerCall>)
    ensures AnsweredInTurn(ServeAll(calls))
  {
    if calls != [] {
      OperationsAreAnsweredInTurn(calls[..|calls| - 1]);
      ServeKeepsTurns(ServeAll(calls[..|calls| - 1]), calls[|calls| - 1]);
    }
  }

  /** An operation was asked of the pipeline and no poll has ended it. */
  predicate Open(s: Served) {
    |Asked(s.peer.log)| > |s.results|
  }

  /** What a call asks of the pipeline: a description unless an operation is open,
      the setting of one that is neither empty nor over 65536 bytes and that
      parses, or the playing of whole samples that do not overfill the queue. */
  function Asks(call: PeerCall, open: bool): seq<Request> {
    match call
    case CallCreate(offer) => if open then [] else [if offer then CreateOffer else CreateAnswer]
    case CallSet(sdp, offer, local, e) =>
      if !open && 1 <= |sdp| <= 65536 && e.allocates && e.parses then [SetDescription(sdp, offer, local)] else []
    case CallPush(pcm, e) =>
      if 2 <= |pcm| <= 24000 && |pcm| % 2 == 0 && e.level + |pcm| <= 48000 && e.allocates then [PushBuffer(pcm)] else []
    case _ => []
  }

  /** After any calls: what one more asks of the pipeline, which polls end an
      operation, and what callers are told of it. */
  lemma WhatACallDoes(calls: seq<PeerCall>, call: PeerCall)
    ensures var (s, t) := (ServeAll(calls), ServeAll(calls + [call]));
            var asks := Asks(call, Open(s));
            && t.peer.log == s.peer.log + asks
            && (Open(t) <==> if call.CallPoll? then Open(s) && !call.e.finished
                             else Open(s) || (asks != [] && !call.CallPush?))
            && (call.CallCreate? ==> CreateDescription(s.peer, call.offer).1 == |asks|)
            && (call.CallSet? ==> SetDescriptionTo(s.peer, call.sdp, call.offer, call.local, call.e).1 == |asks|)
            && (call.CallPush? ==> Push(s.peer, call.pcm, call.e).1 == if call.e.flows then |asks| else 0)
            && (call.CallPoll? ==>
                var x := Operation(s.peer, call.capacity, call.e);
                if !Open(s) then x.1 == -1 && x.2 == [] && t.results == s.results
                else if !call.e.finished then x.1 == 0 && x.2 == [] && t.results == s.results
                else t.results == s.results + [Ended(call.e.promise, call.capacity, x.1, x.2)])
            && (!call.CallPoll? ==> t.results == s.results)
  {
    OperationsAreAnsweredInTurn(calls);
    OperationsAreAnsweredInTurn(calls + [call]);
    assert (calls + [call])[..|calls|] == calls;
  }

  /** Two calls that change nothing: the local description is returned whole,
      once it is gathered, or not at all; so is a received sample. */
  lemma OutputIsWhole(capacity: nat, e: Answers)
    ensures var (result, output) := LocalDescription(capacity, e);
            if !e.gathered then result == 0 && output == []
            else if Copyable(e.local, capacity) then result == |output| && Some(output) == e.local
            else result == -1 && output == []
    ensures var (result, output) := Pull(capacity, e);
            if e.sample.None? then result == 0 && output == []
            else if 2 <= |e.sample.value| <= capacity && |e.sample.value| % 2 == 0
            then result == |output| && Some(output) == e.sample
            else result == -1 && output == []
  {
  }

  predicate Fails(call: PeerCall) {
    (call.CallState? && call.e.trouble) || (call.PadArrives? && call.pad.source && (call.pad.taken || !call.pad.links))
  }

  /** The latch is set exactly by a state poll that finds an error message, or by
      a source pad that arrives and cannot be linked... */
  lemma {:induction false} LatchRemembersTrouble(calls: seq<PeerCall>)
    ensures ServeAll(calls).peer.failed <==> exists call :: call in calls && Fails(call)
  {
    if calls != [] {
      var front, last := calls[..|calls| - 1], calls[|calls| - 1];
      LatchRemembersTrouble(front);
      assert calls == front + [last];
      assert last in calls && forall call :: call in calls <==> call in front || call == last;
    }
  }

  /** ...and then every later poll of the state returns -1, whatever the
      connection says. */
  lemma LatchIsFinal(calls: seq<PeerCall>, more: seq<PeerCall>, e: Answers)
    requires ServeAll(calls).peer.failed
    ensures ServeAll(calls + more).peer.failed && ConnectionState(ServeAll(calls + more).peer, e).1 == -1
  {
    LatchRemembersTrouble(calls);
    LatchRemembersTrouble(calls + more);
  }

  /** A poll of the state tells the connection's state exactly while nothing has
      failed, now or before. */
  lemma StateTellsConnection(calls: seq<PeerCall>, e: Answers)
    ensures var result := ConnectionState(ServeAll(calls).peer, e).1;
            var fine := !e.trouble && forall call :: call in calls ==> !Fails(call);
            && (result == 1 <==> fine && e.connection.Connected?)
            && (result == 0 <==> fine && e.connection.Connecting?)
            && (result == -1 <==> !fine || e.connection.Lost?)
  {
    LatchRemembersTrouble(calls);
  }
}
