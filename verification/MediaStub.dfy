/** The client stub and the helper's dispatcher, and why a caller of the stub
    cannot tell it from the media library itself. */
module MediaStub {
  import opened ByteStrings
  import opened MediaWire
  import opened Wrappers
  import P = PeerConnection
  import A = AudioDevice

  /** What a helper process holds: nothing until opened, then one resource. */
  datatype Resource = Unopened | PeerResource(peer: P.Peer) | AudioResource(audio: A.Audio)

  /** Everything the devices decide about one call: `arrivals` were captured and
      `pads` announced since the previous call. */
  datatype Env = Env(
    opens: bool,
    peer: P.Answers,
    pads: seq<P.Pad>,
    arrivals: seq<Bytes>,
    busError: bool,
    extracts: bool)

  datatype Call =
    | Create(offer: bool)
    | Set(sdp: Bytes, offer: bool, local: bool)
    | Poll(capacity: nat)
    | Local(capacity: nat)
    | PeerState
    | Push(pcm: Bytes)
    | Pull(capacity: nat)
    | Read(capacity: nat)
    | Write(pcm: Bytes)
    | AudioState
  {
    predicate OnPeer() { Create? || Set? || Poll? || Local? || PeerState? || Push? || Pull? }
  }

  predicate Fits(r: Resource, call: Call) {
    if call.OnPeer() then r.PeerResource? else r.AudioResource?
  }

  function CapturedAll(a: A.Audio, arrivals: seq<Bytes>): (r: A.Audio)
    ensures r.capture == a.capture
    decreases |arrivals|
  {
    if arrivals == [] then a else CapturedAll(A.Captured(a, arrivals[0]), arrivals[1..])
  }

  function PadsArrived(p: P.Peer, pads: seq<P.Pad>): P.Peer
    decreases |pads|
  {
    if pads == [] then p else PadsArrived(P.PadArrived(p, pads[0]), pads[1..])
  }

  /** Devices run whether or not anybody calls; a playback device has no capture
      callback. */
  function Tick(r: Resource, e: Env): Resource {
    match r
    case Unopened => r
    case PeerResource(p) => PeerResource(PadsArrived(p, e.pads))
    case AudioResource(a) => AudioResource(if a.capture then CapturedAll(a, e.arrivals) else a)
  }

  // ----- The library itself -----

  /** A call of the media library in the caller's own process: the resource
      afterwards, the returned int, and the bytes written for a positive int. */
  function Direct(before: Resource, call: Call, e: Env): (Resource, int, Bytes)
    requires Fits(before, call)
  {
    var r := Tick(before, e);
    match call
    case Create(offer) =>
      var x := P.CreateDescription(r.peer, offer);
      (PeerResource(x.0), x.1, [])
    case Set(sdp, offer, local) =>
      var x := P.SetDescriptionTo(r.peer, sdp, offer, local, e.peer);
      (PeerResource(x.0), x.1, [])
    case Poll(c) =>
      var x := P.Operation(r.peer, c, e.peer);
      (PeerResource(x.0), x.1, x.2)
    case Local(c) =>
      var x := P.LocalDescription(c, e.peer);
      (r, x.0, x.1)
    case PeerState =>
      var x := P.ConnectionState(r.peer, e.peer);
      (PeerResource(x.0), x.1, [])
    case Push(pcm) =>
      var x := P.Push(r.peer, pcm, e.peer);
      (PeerResource(x.0), x.1, [])
    case Pull(c) =>
      var x := P.Pull(c, e.peer);
      (r, x.0, x.1)
    case Read(c) =>
      var x := A.ReadAlone(r.audio, c, e.busError, e.extracts);
      (AudioResource(x.0), x.1, x.2)
    case Write(pcm) =>
      var x := A.WriteAlone(r.audio, pcm, e.busError, e.peer.level, e.peer.allocates, e.peer.flows);
      (AudioResource(x.0), x.1, [])
    case AudioState =>
      var x := A.Polled(r.audio, e.busError);
      (AudioResource(x), A.PolledResult(x), [])
  }

  // ----- The client's half -----

  datatype Ask = Ask(operation: Word, argument: Word, payload: Bytes, capacity: nat)

  /** The stub answers some calls on its own. */
  datatype Prepared = AnswerNow(result: int) | SendAsk(ask: Ask)

  predicate BadPcm(pcm: Bytes) {
    pcm == [] || |pcm| % 2 != 0 || |pcm| > 24000
  }

  function Truncated(n: nat): Word {
    n % 0x1_0000_0000
  }

  function Prepare(call: Call): Prepared {
    match call
    case Create(offer) => SendAsk(Ask(CREATE, if offer then 1 else 0, [], 0))
    case Set(sdp, offer, local) =>
      SendAsk(Ask(SET, (if offer then 1 else 0) + (if local then 2 else 0), sdp, 0))
    case Poll(c) => SendAsk(Ask(OPERATION, 0, [], c))
    case Local(c) => SendAsk(Ask(LOCAL, 0, [], c))
    case PeerState => SendAsk(Ask(STATE, 0, [], 0))
    case Push(pcm) => if BadPcm(pcm) then AnswerNow(0) else SendAsk(Ask(PUSH, 0, pcm, 0))
    case Pull(c) => SendAsk(Ask(PULL, Truncated(c), [], c))
    case Read(c) => SendAsk(Ask(AUDIO_READ, Truncated(c), [], c))
    case Write(pcm) => if BadPcm(pcm) then AnswerNow(-1) else SendAsk(Ask(AUDIO_WRITE, 0, pcm, 0))
    case AudioState => SendAsk(Ask(AUDIO_STATE, 0, [], 0))
  }

  predicate WithinLimit(ask: Ask) {
    |ask.payload| <= LIMIT && ask.capacity <= LIMIT
  }

  function RequestBytes(ask: Ask): (b: Bytes)
    requires WithinLimit(ask)
    ensures |b| == HEADER + |ask.payload|
  {
    Encode(Message(MAGIC, ask.operation, ask.argument, |ask.payload|)) + ask.payload
  }

  predicate ReturnsBytes(operation: Word) {
    operation == OPERATION || operation == LOCAL || operation == PULL || operation == AUDIO_READ
  }

  /** The checks media_request makes on a reply header. */
  predicate GoodReply(ask: Ask, m: Message) {
    && m.magic == MAGIC && m.operation == ask.operation && m.length <= ask.capacity
    && (ReturnsBytes(ask.operation) && Signed(m.argument) > 0 ==> m.argument == m.length)
    && (ReturnsBytes(ask.operation) && Signed(m.argument) <= 0 ==> m.length == 0)
  }

  /** None stands for closing the descriptor. */
  function Accept(ask: Ask, reply: Bytes): Option<(Int32, Bytes)> {
    if |reply| < HEADER then None
    else
      var m := Decode(reply[..HEADER]);
      if !GoodReply(ask, m) || |reply| != HEADER + m.length then None
      else Some((Signed(m.argument), reply[HEADER..]))
  }

  /** What a call that gave up had received: less than it wanted, or a header it
      does not accept. */
  predicate CutShort(ask: Ask, got: Bytes) {
    || |got| < HEADER
    || var m := Decode(got[..HEADER]);
       if GoodReply(ask, m) then |got| < HEADER + m.length else |got| == HEADER
  }

  lemma CutShortIsNotAccepted(ask: Ask, got: Bytes)
    requires CutShort(ask, got)
    ensures Accept(ask, got).None?
  {
  }

  function Returned(call: Call, value: int): int {
    if call.Push? then (if value == 1 then 1 else 0) else value
  }

  // ----- The helper's half -----

  function Clamped(argument: Word): nat {
    if argument <= LIMIT then argument else 0
  }

  /** The switch over operations; None stands for leaving the loop unanswered. */
  function Dispatch(before: Resource, operation: Word, argument: Word, payload: Bytes, e: Env)
    : (answer: Option<(Resource, int, Bytes)>)
    ensures answer.Some? ==> -1 <= answer.value.1 <= LIMIT
    ensures answer.Some? ==>
      |answer.value.2| == if ReturnsBytes(operation) && answer.value.1 > 0 then answer.value.1 else 0
  {
    var r := Tick(before, e);
    match r
    case Unopened =>
      if payload != [] then None
      else if operation == OPEN_PEER then Some(if e.opens then (PeerResource(P.NewPeer), 0, []) else (r, -1, []))
      else if operation == OPEN_CAPTURE then
        Some(if e.opens then (AudioResource(A.Opened(true)), 0, []) else (r, -1, []))
      else if operation == OPEN_PLAYBACK then
        Some(if e.opens then (AudioResource(A.Opened(false)), 0, []) else (r, -1, []))
      else None
    case PeerResource(p) =>
      if operation == CREATE then
        var x := P.CreateDescription(p, argument != 0);
        Some((PeerResource(x.0), x.1, []))
      else if operation == SET then
        if 0 in payload then Some((r, -1, []))
        else
          var x := P.SetDescriptionTo(p, payload, argument % 2 == 1, argument / 2 % 2 == 1, e.peer);
          Some((PeerResource(x.0), x.1, []))
      else if operation == OPERATION then
        var x := P.Operation(p, LIMIT, e.peer);
        Some((PeerResource(x.0), x.1, x.2))
      else if operation == LOCAL then
        var x := P.LocalDescription(LIMIT, e.peer);
        Some((r, x.0, x.1))
      else if operation == STATE then
        var x := P.ConnectionState(p, e.peer);
        Some((PeerResource(x.0), x.1, []))
      else if operation == PUSH then
        var x := P.Push(p, payload, e.peer);
        Some((PeerResource(x.0), x.1, []))
      else if operation == PULL then
        var x := P.Pull(Clamped(argument), e.peer);
        Some((r, x.0, x.1))
      else None
    case AudioResource(a) =>
      if operation == AUDIO_READ then
        var x := A.ReadAlone(a, Clamped(argument), e.busError, e.extracts);
        Some((AudioResource(x.0), x.1, x.2))
      else if operation == AUDIO_WRITE then
        var x := A.WriteAlone(a, payload, e.busError, e.peer.level, e.peer.allocates, e.peer.flows);
        Some((AudioResource(x.0), x.1, []))
      else if operation == AUDIO_STATE then
        var x := A.Polled(a, e.busError);
        Some((AudioResource(x), A.PolledResult(x), []))
      else None
  }

  function ReplyBytes(operation: Word, result: Int32, output: Bytes): (b: Bytes)
    requires |output| <= LIMIT
    ensures |b| == HEADER + |output|
  {
    Encode(Message(MAGIC, operation, Unsigned(result), |output|)) + output
  }

  /** The helper reads one whole request and answers it. */
  function Answer(r: Resource, request: Bytes, e: Env): Option<(Resource, Bytes)> {
    if |request| < HEADER then None
    else
      var m := Decode(request[..HEADER]);
      if m.magic != MAGIC || m.length > LIMIT || |request| != HEADER + m.length then None
      else
        match Dispatch(r, m.operation, m.argument, request[HEADER..], e)
        case None => None
        case Some(x) => Some((x.0, ReplyBytes(m.operation, x.1, x.2)))
  }

  // ----- A call through both halves, over faultless transport -----

  /** None: the descriptor was closed. */
  function Remote(r: Resource, call: Call, e: Env): Option<(Resource, int, Bytes)> {
    match Prepare(call)
    case AnswerNow(result) => Some((Tick(r, e), result, []))
    case SendAsk(ask) =>
      if !WithinLimit(ask) then Some((Tick(r, e), -1, []))
      else
        match Answer(r, RequestBytes(ask), e)
        case None => None
        case Some(x) =>
          match Accept(ask, x.1)
          case None => None
          case Some(y) => Some((x.0, Returned(call, y.0), y.1))
  }

  /** Sizes for which the library makes its promises. */
  predicate InLimit(call: Call) {
    match call
    case Set(sdp, _, _) => |sdp| <= LIMIT && P.Text(sdp)
    case Poll(c) => P.MAX_DESCRIPTION <= c <= LIMIT
    case Local(c) => P.MAX_DESCRIPTION <= c <= LIMIT
    case Pull(c) => c <= LIMIT
    case Read(c) => c <= LIMIT
    case _ => true
  }

  /** What the helper sees is what the client asked. */
  lemma RequestSurvivesTheWire(r: Resource, ask: Ask, e: Env)
    requires WithinLimit(ask)
    ensures Answer(r, RequestBytes(ask), e)
         == match Dispatch(r, ask.operation, ask.argument, ask.payload, e)
            case None => None
            case Some(x) => Some((x.0, ReplyBytes(ask.operation, x.1, x.2)))
  {
    var m := Message(MAGIC, ask.operation, ask.argument, |ask.payload|);
    MessageRoundTrip(m);
    assert RequestBytes(ask)[..HEADER] == Encode(m) && RequestBytes(ask)[HEADER..] == ask.payload;
  }

  /** A reply is accepted exactly when its bytes fit the caller's buffer. */
  lemma ReplySurvivesTheWire(ask: Ask, result: Int32, output: Bytes)
    requires |output| <= LIMIT
    requires |output| == if ReturnsBytes(ask.operation) && result > 0 then result else 0
    ensures Accept(ask, ReplyBytes(ask.operation, result, output))
         == if |output| <= ask.capacity then Some((result, output)) else None
  {
    var m := Message(MAGIC, ask.operation, Unsigned(result), |output|);
    MessageRoundTrip(m);
    SignRoundTrip(result, 0);
    assert ReplyBytes(ask.operation, result, output)[..HEADER] == Encode(m);
    assert ReplyBytes(ask.operation, result, output)[HEADER..] == output;
  }

  /** The only replies a client accepts: the encoding of a result and an output
      that fits its buffer, where the calls that return bytes return as many as
      their result says. */
  lemma AcceptedIff(ask: Ask, reply: Bytes, result: Int32, output: Bytes)
    requires ask.capacity <= LIMIT
    ensures Accept(ask, reply) == Some((result, output)) <==>
      && |output| <= ask.capacity
      && reply == Encode(Message(MAGIC, ask.operation, Unsigned(result), |output|)) + output
      && (ask.operation in {6, 7, 10, 11} ==> |output| == if result > 0 then result else 0)
  {
    assert ReturnsBytes(ask.operation) <==> ask.operation in {6, 7, 10, 11};
    if Accept(ask, reply) == Some((result, output)) {
      BytesRoundTrip(reply[..HEADER]);
      SignRoundTrip(0, Decode(reply[..HEADER]).argument);
      assert reply == reply[..HEADER] + output;
    }
    if |output| <= ask.capacity && reply == Encode(Message(MAGIC, ask.operation, Unsigned(result), |output|)) + output {
      MessageRoundTrip(Message(MAGIC, ask.operation, Unsigned(result), |output|));
      SignRoundTrip(result, 0);
      assert reply[..HEADER] == Encode(Message(MAGIC, ask.operation, Unsigned(result), |output|));
      assert reply[HEADER..] == output && reply[HEADER..][..0] == [];
      assert Decode(reply[..HEADER]) == Message(MAGIC, ask.operation, Unsigned(result), |output|);
    }
  }

  /** The requests that end the helper's loop unanswered: an opening with a
      payload, and whatever is not an operation of what the helper holds. */
  lemma UnansweredIff(r: Resource, operation: Word, argument: Word, payload: Bytes, e: Env)
    ensures Dispatch(r, operation, argument, payload, e).None? <==>
      match r
      case Unopened => payload != [] || !(1 <= operation <= 3)
      case PeerResource(_) => !(4 <= operation <= 10)
      case AudioResource(_) => !(11 <= operation <= 13)
  {
  }

  /** Requests that no stub sends: a description with a NUL byte is refused, and
      nothing is delivered into a buffer beyond the limit. */
  lemma OddRequests(r: Resource, argument: Word, payload: Bytes, e: Env)
    ensures r.PeerResource? && 0 in payload ==> Dispatch(r, SET, argument, payload, e) == Some((Tick(r, e), -1, []))
    ensures r.PeerResource? && argument > 0x4_0000 ==> Dispatch(r, PULL, argument, payload, e).value.1 <= 0
    ensures r.AudioResource? && argument > 0x4_0000 ==> Dispatch(r, AUDIO_READ, argument, payload, e).value.2 == []
  {
  }

  /** Dispatch and the client's capacity check, without the wire in between. */
  function Unwired(r: Resource, call: Call, ask: Ask, e: Env): Option<(Resource, int, Bytes)> {
    match Dispatch(r, ask.operation, ask.argument, ask.payload, e)
    case None => None
    case Some(x) => if |x.2| <= ask.capacity then Some((x.0, Returned(call, x.1), x.2)) else None
  }

  /** A sent call, without its encoding. */
  lemma RemoteIsDispatch(r: Resource, call: Call, e: Env)
    requires Prepare(call).SendAsk? && WithinLimit(Prepare(call).ask)
    ensures Remote(r, call, e) == Unwired(r, call, Prepare(call).ask, e)
  {
    var ask := Prepare(call).ask;
    RequestSurvivesTheWire(r, ask, e);
    match Dispatch(r, ask.operation, ask.argument, ask.payload, e)
    case None =>
    case Some(x) => ReplySurvivesTheWire(ask, x.1, x.2);
  }

  lemma PeerStubRefines(r: Resource, call: Call, e: Env)
    requires r.PeerResource? && InLimit(call) && Prepare(call).SendAsk?
    requires call.Create? || call.Set? || call.PeerState? || call.Push?
    ensures Unwired(r, call, Prepare(call).ask, e) == Some(Direct(r, call, e))
  {
  }

  lemma PeerBytesStubRefines(r: Resource, call: Call, e: Env)
    requires r.PeerResource? && InLimit(call)
    requires call.Poll? || call.Local? || call.Pull?
    ensures Unwired(r, call, Prepare(call).ask, e) == Some(Direct(r, call, e))
  {
  }

  lemma AudioStubRefines(r: Resource, call: Call, e: Env)
    requires r.AudioResource? && InLimit(call) && !call.OnPeer() && Prepare(call).SendAsk?
    ensures Unwired(r, call, Prepare(call).ask, e) == Some(Direct(r, call, e))
  {
  }

  /** One call through the stub is one call of the library. */
  lemma StubRefinesLibrary(r: Resource, call: Call, e: Env)
    requires Fits(r, call) && InLimit(call)
    ensures Remote(r, call, e) == Some(Direct(r, call, e))
  {
    if Prepare(call).SendAsk? {
      RemoteIsDispatch(r, call, e);
      if !call.OnPeer() {
        AudioStubRefines(r, call, e);
      } else if call.Poll? || call.Local? || call.Pull? {
        PeerBytesStubRefines(r, call, e);
      } else {
        PeerStubRefines(r, call, e);
      }
    }
  }

  function RemoteRun(r: Resource, calls: seq<(Call, Env)>): Option<(Resource, seq<(int, Bytes)>)>
    decreases |calls|
  {
    if calls == [] then Some((r, []))
    else
      match Remote(r, calls[0].0, calls[0].1)
      case None => None
      case Some(x) =>
        match RemoteRun(x.0, calls[1..])
        case None => None
        case Some(y) => Some((y.0, [(x.1, x.2)] + y.1))
  }

  ghost predicate AllFit(r: Resource, calls: seq<(Call, Env)>) {
    forall c | c in calls :: Fits(r, c.0) && InLimit(c.0)
  }

  function DirectRun(r: Resource, calls: seq<(Call, Env)>): (Resource, seq<(int, Bytes)>)
    requires AllFit(r, calls)
    decreases |calls|
  {
    if calls == [] then (r, [])
    else
      var x := Direct(r, calls[0].0, calls[0].1);
      var y := DirectRun(x.0, calls[1..]);
      (y.0, [(x.1, x.2)] + y.1)
  }

  /** Any sequence of in-limit calls returns through the stub what it returns
      from the library, byte for byte, and leaves the resource alike. */
  lemma {:induction false} StubRunsRefineLibrary(r: Resource, calls: seq<(Call, Env)>)
    requires AllFit(r, calls)
    ensures RemoteRun(r, calls) == Some(DirectRun(r, calls))
    decreases |calls|
  {
    if calls != [] {
      StubRefinesLibrary(r, calls[0].0, calls[0].1);
      StubRunsRefineLibrary(Direct(r, calls[0].0, calls[0].1).0, calls[1..]);
    }
  }

  // ----- Beyond the limits -----

  /** With any description buffer up to the protocol limit the stub agrees with
      the library exactly when the helper's bytes fit the buffer; otherwise the
      library reports a failure and the stub closes its descriptor. */
  lemma ShortBuffersCloseTheStub(r: Resource, call: Call, e: Env)
    requires r.PeerResource? && (call.Poll? || call.Local?) && call.capacity <= LIMIT
    ensures var full := Direct(r, if call.Poll? then Poll(LIMIT) else Local(LIMIT), e);
            && (Remote(r, call, e) == Some(Direct(r, call, e)) <==> |full.2| <= call.capacity)
            && (|full.2| > call.capacity ==> Remote(r, call, e) == None && Direct(r, call, e).1 == -1)
  {
    hide Remote, RequestBytes, Answer, Accept;
    RemoteIsDispatch(r, call, e);
  }

  ghost predicate Agree(r: Resource, call: Call, e: Env)
    requires Fits(r, call)
  {
    Remote(r, call, e) == Some(Direct(r, call, e))
  }

  ghost predicate PeersAgree(call: Call)
    requires call.OnPeer()
  {
    forall r: Resource, e: Env | r.PeerResource? :: Agree(r, call, e)
  }

  ghost predicate DevicesAgree(call: Call)
    requires !call.OnPeer()
  {
    forall r: Resource, e: Env | r.AudioResource? :: Agree(r, call, e)
  }

  /** What a caller can check: stub and library agree on every peer and device,
      whatever they answer, exactly when a buffer is within the protocol limit
      and, for a description, holds the longest there is. */
  lemma BuffersThatAgree(capacity: nat)
    ensures PeersAgree(Local(capacity)) <==> P.MAX_DESCRIPTION <= capacity <= LIMIT
    ensures PeersAgree(Poll(capacity)) <==> P.MAX_DESCRIPTION <= capacity <= LIMIT
    ensures PeersAgree(Pull(capacity)) <==> capacity <= LIMIT
    ensures DevicesAgree(Read(capacity)) <==> capacity <= LIMIT
  {
    hide Remote, Direct;
    if capacity > LIMIT {
      BeyondTheLimit(capacity);
    } else {
      forall r: Resource, e: Env | r.PeerResource? ensures Agree(r, Pull(capacity), e) {
        StubRefinesLibrary(r, Pull(capacity), e);
      }
      forall r: Resource, e: Env | r.AudioResource? ensures Agree(r, Read(capacity), e) {
        StubRefinesLibrary(r, Read(capacity), e);
      }
      if P.MAX_DESCRIPTION <= capacity {
        forall r: Resource, e: Env | r.PeerResource?
          ensures Agree(r, Local(capacity), e) && Agree(r, Poll(capacity), e)
        {
          StubRefinesLibrary(r, Local(capacity), e);
          StubRefinesLibrary(r, Poll(capacity), e);
        }
      } else {
        var r, e := LongestDescription(capacity);
        assert !Agree(r, Local(capacity), e) && !Agree(r, Poll(capacity), e);
      }
    }
  }

  /** An environment in which every device has nothing to say. */
  const Quiet: Env :=
    Env(true, P.Answers(true, true, false, P.NotReplied, false, None, false, P.Connecting, 0, true, None),
        [], [], false, true)

  /** Beyond the protocol limit the stub answers -1 where the library has nothing
      yet and answers 0. */
  lemma BeyondTheLimit(capacity: nat)
    requires capacity > LIMIT
    ensures !PeersAgree(Local(capacity)) && !PeersAgree(Poll(capacity)) && !PeersAgree(Pull(capacity))
    ensures !DevicesAgree(Read(capacity))
  {
    var peer := PeerResource(P.Peer(Some(None), false, []));
    var device := AudioResource(A.Opened(true));
    assert !Agree(peer, Local(capacity), Quiet) && !Agree(peer, Poll(capacity), Quiet);
    assert !Agree(peer, Pull(capacity), Quiet) && !Agree(device, Read(capacity), Quiet);
  }

  /** A peer and a pipeline that render a description of the greatest length. */
  lemma LongestDescription(capacity: nat) returns (r: Resource, e: Env)
    requires capacity < P.MAX_DESCRIPTION
    ensures r.PeerResource? && !Agree(r, Local(capacity), e) && !Agree(r, Poll(capacity), e)
  {
    hide Remote, Dispatch, Answer, Accept, RequestBytes;
    var text: Bytes := seq(P.MAX_DESCRIPTION, _ => 1);
    var replied := P.Replied(Some(text));
    r := PeerResource(P.Peer(Some(Some(P.Offer)), false, []));
    e := Quiet.(peer := P.Answers(true, true, true, replied, true, Some(text), false, P.Connected, 0, true, None));
    ShortBuffersCloseTheStub(r, Local(capacity), e);
    ShortBuffersCloseTheStub(r, Poll(capacity), e);
  }

  /** A description over the protocol limit never reaches the helper: the stub
      answers -1 where the library answers 0. */
  lemma OversizedDescriptionsDisagree(r: Resource, sdp: Bytes, offer: bool, local: bool, e: Env)
    requires r.PeerResource? && P.Text(sdp)
    ensures Remote(r, Set(sdp, offer, local), e) == Some(Direct(r, Set(sdp, offer, local), e)) <==> |sdp| <= LIMIT
  {
    if |sdp| <= LIMIT { StubRefinesLibrary(r, Set(sdp, offer, local), e); }
  }
}
