/** A client stub and its helper process, byte by byte: both ends move chunks of
    any size over two streams, interleaved in any way, and either may fail at
    any point. */
module MediaSession {
  import opened ByteStrings
  import opened MediaStub
  import opened MediaWire
  import opened Wrappers
  import A = AudioDevice
  import P = PeerConnection

  datatype Client =
    | Idle
    | Sending(ask: Ask, rest: Bytes)
    | Receiving(ask: Ask, got: Bytes)
    | Closed

  datatype Helper =
    | Reading(taken: Bytes)
    | Replying(rest: Bytes)
    | Dead

  /** A request the helper answered, with the resource before and after. */
  datatype Exchange = Exchange(ask: Ask, env: Env, before: Resource, after: Resource, reply: Bytes)

  datatype Return = Return(ask: Ask, result: Int32, output: Bytes)

  datatype State = State(
    client: Client,
    toHelper: Bytes,
    toClient: Bytes,
    helper: Helper,
    resource: Resource,
    handled: seq<Exchange>,
    returned: seq<Return>)

  const Beginning: State := State(Idle, [], [], Reading([]), Unopened, [], [])

  datatype Step =
    | ClientAsks(ask: Ask)
    | ClientSends(count: nat)
    | ClientReceives(count: nat)
    | ClientFails
    | HelperReads(count: nat)
    | HelperAnswers(env: Env)
    | HelperSends(count: nat)
    | HelperDies

  /** How many bytes the current media_transfer of a reader still wants. */
  function Wanted(b: Bytes): int {
    if |b| < HEADER then HEADER - |b| else HEADER + Decode(b[..HEADER]).length - |b|
  }

  predicate GoodRequest(m: Message) {
    m.magic == MAGIC && m.length <= LIMIT
  }

  ghost predicate Enabled(s: State, step: Step) {
    match step
    case ClientAsks(ask) => s.client.Idle? && WithinLimit(ask)
    case ClientSends(n) => s.client.Sending? && 0 < n <= |s.client.rest|
    case ClientReceives(n) => s.client.Receiving? && 0 < n <= |s.toClient| && n <= Wanted(s.client.got)
    case ClientFails => s.client.Sending? || s.client.Receiving?
    case HelperReads(n) => s.helper.Reading? && 0 < n <= |s.toHelper| && n <= Wanted(s.helper.taken)
    case HelperAnswers(_) => s.helper.Reading? && |s.helper.taken| >= HEADER && Wanted(s.helper.taken) == 0
    case HelperSends(n) => s.helper.Replying? && 0 < n <= |s.helper.rest|
    case HelperDies => true
  }

  /** The client after a chunk: a bad header closes, a whole reply returns. */
  function Received(s: State, ask: Ask, got: Bytes): State {
    if |got| == HEADER && !GoodReply(ask, Decode(got)) then s.(client := Closed)
    else if |got| >= HEADER && Wanted(got) == 0 then
      match Accept(ask, got)
      case None => s.(client := Closed)
      case Some(x) => s.(client := Idle, returned := s.returned + [Return(ask, x.0, x.1)])
    else s.(client := Receiving(ask, got))
  }

  /** The helper handles a whole request; the capacity is the caller's. */
  function Handled(s: State, taken: Bytes, capacity: nat, e: Env): State
    requires |taken| >= HEADER
  {
    var m := Decode(taken[..HEADER]);
    match Answer(s.resource, taken, e)
    case None => s.(helper := Dead)
    case Some(x) =>
      s.(helper := Replying(x.1), resource := x.0,
         handled := s.handled + [Exchange(Ask(m.operation, m.argument, taken[HEADER..], capacity),
                                          e, s.resource, x.0, x.1)])
  }

  function Apply(s: State, step: Step): State {
    match step
    case ClientAsks(ask) => if !WithinLimit(ask) then s else s.(client := Sending(ask, RequestBytes(ask)))
    case ClientSends(n) =>
      if !s.client.Sending? || n > |s.client.rest| then s
      else
        var rest := s.client.rest[n..];
        s.(toHelper := s.toHelper + s.client.rest[..n],
           client := if rest == [] then Receiving(s.client.ask, []) else Sending(s.client.ask, rest))
    case ClientReceives(n) =>
      if !s.client.Receiving? || n > |s.toClient| then s
      else Received(s.(toClient := s.toClient[n..]), s.client.ask, s.client.got + s.toClient[..n])
    case ClientFails => s.(client := Closed)
    case HelperReads(n) =>
      if !s.helper.Reading? || n > |s.toHelper| then s
      else
        var taken := s.helper.taken + s.toHelper[..n];
        s.(toHelper := s.toHelper[n..],
           helper := if |taken| == HEADER && !GoodRequest(Decode(taken)) then Dead else Reading(taken))
    case HelperAnswers(e) =>
      if !s.helper.Reading? || |s.helper.taken| < HEADER then s
      else
        Handled(s, s.helper.taken, if s.client.Receiving? then s.client.ask.capacity else 0, e)
    case HelperSends(n) =>
      if !s.helper.Replying? || n > |s.helper.rest| then s
      else
        var rest := s.helper.rest[n..];
        s.(toClient := s.toClient + s.helper.rest[..n],
           helper := if rest != [] then Replying(rest) else if s.resource.Unopened? then Dead else Reading([]))
    case HelperDies => s.(helper := Dead)
  }

  ghost predicate IsRun(s: State, steps: seq<Step>)
    decreases |steps|
  {
    steps == [] || (Enabled(s, steps[0]) && IsRun(Apply(s, steps[0]), steps[1..]))
  }

  function Final(s: State, steps: seq<Step>): State
    decreases |steps|
  {
    if steps == [] then s else Final(Apply(s, steps[0]), steps[1..])
  }

  // ----- Invariant -----

  ghost predicate Faithful(x: Exchange) {
    WithinLimit(x.ask) && Answer(x.before, RequestBytes(x.ask), x.env) == Some((x.after, x.reply))
  }

  /** Each exchange starts from the resource the previous one left. */
  ghost predicate Chained(handled: seq<Exchange>, now: Resource) {
    && (forall x | x in handled :: Faithful(x))
    && (forall i | 0 <= i < |handled| - 1 :: handled[i].after == handled[i + 1].before)
    && (handled == [] ==> now == Unopened)
    && (handled != [] ==> handled[0].before == Unopened && handled[|handled| - 1].after == now)
  }

  /** The i-th returned value answers the i-th request. */
  ghost predicate Paired(handled: seq<Exchange>, returned: seq<Return>) {
    |returned| <= |handled| && forall i | 0 <= i < |returned| ::
      returned[i].ask == handled[i].ask
      && Accept(handled[i].ask, handled[i].reply) == Some((returned[i].result, returned[i].output))
  }

  /** Nothing of the current request has been answered: what the helper took,
      what is under way and what is still to be sent make up the request. */
  ghost predicate Unanswered(s: State, ask: Ask, rest: Bytes) {
    && WithinLimit(ask)
    && |s.handled| == |s.returned|
    && s.toClient == []
    && !s.helper.Replying?
    && (s.helper.Reading? ==> s.helper.taken + s.toHelper + rest == RequestBytes(ask))
  }

  /** The current request was answered: what the client got, what is under way
      and what the helper still holds make up the reply. */
  ghost predicate Answered(s: State, ask: Ask, got: Bytes) {
    && |s.handled| == |s.returned| + 1
    && s.toHelper == []
    && var x := s.handled[|s.handled| - 1];
       && x.ask == ask
       && match s.helper
          case Replying(rest) => rest != [] && got + s.toClient + rest == x.reply
          case Reading(taken) => taken == [] && got + s.toClient == x.reply
          case Dead => got + s.toClient <= x.reply
  }

  ghost predicate Synchronized(s: State) {
    match s.client
    case Closed => true
    case Idle =>
      && |s.handled| == |s.returned| && s.toClient == [] && s.toHelper == []
      && (s.helper == Reading([]) || s.helper == Dead)
    case Sending(ask, rest) => rest != [] && Unanswered(s, ask, rest)
    case Receiving(ask, got) =>
      || (got == [] && Unanswered(s, ask, []))
      || (Answered(s, ask, got) && (|got| < HEADER || (Wanted(got) > 0 && GoodReply(ask, Decode(got[..HEADER])))))
  }

  ghost predicate Inv(s: State) {
    s.client.Closed? || (Chained(s.handled, s.resource) && Paired(s.handled, s.returned) && Synchronized(s))
  }

  // ----- Headers arrive before what they announce -----

  lemma RequestPrefix(ask: Ask, b: Bytes)
    requires WithinLimit(ask) && |b| >= HEADER && b <= RequestBytes(ask)
    ensures Decode(b[..HEADER]) == Message(MAGIC, ask.operation, ask.argument, |ask.payload|)
    ensures Wanted(b) == |RequestBytes(ask)| - |b|
    ensures b == RequestBytes(ask) ==> b[HEADER..] == ask.payload
  {
    var m := Message(MAGIC, ask.operation, ask.argument, |ask.payload|);
    MessageRoundTrip(m);
    assert b[..HEADER] == RequestBytes(ask)[..HEADER] == Encode(m);
  }

  lemma ReplyPrefix(x: Exchange, b: Bytes)
    requires Faithful(x) && |b| >= HEADER && b <= x.reply
    ensures Wanted(b) == |x.reply| - |b|
  {
    RequestSurvivesTheWire(x.before, x.ask, x.env);
    var d := Dispatch(x.before, x.ask.operation, x.ask.argument, x.ask.payload, x.env);
    assert d.Some?;
    var m := Message(MAGIC, x.ask.operation, Unsigned(d.value.1), |d.value.2|);
    MessageRoundTrip(m);
    assert x.reply == Encode(m) + d.value.2;
    assert b[..HEADER] == x.reply[..HEADER] == Encode(m);
  }

  lemma ReplyIsNotEmpty(x: Exchange)
    requires Faithful(x)
    ensures |x.reply| >= HEADER
  {
    RequestSurvivesTheWire(x.before, x.ask, x.env);
  }

  // ----- Every step keeps the invariant -----

  lemma MoveChunk<T>(before: seq<T>, queue: seq<T>, after: seq<T>, n: nat)
    requires n <= |queue|
    ensures before + queue + after == (before + queue[..n]) + queue[n..] + after
  {
    assert queue == queue[..n] + queue[n..];
  }

  lemma ClientSendKeepsInv(s: State, n: nat)
    requires Inv(s) && Enabled(s, ClientSends(n))
    ensures Inv(Apply(s, ClientSends(n)))
  {
    hide Answer, Accept, Decode, Encode;
    var ask, rest := s.client.ask, s.client.rest;
    var t := Apply(s, ClientSends(n));
    assert rest == rest[..n] + rest[n..];
    if s.helper.Reading? {
      assert s.helper.taken + s.toHelper + rest == s.helper.taken + (s.toHelper + rest[..n]) + rest[n..];
    }
  }

  lemma ReceivedChunk(s: State, ask: Ask, got: Bytes, n: nat)
    requires Answered(s, ask, got) && n <= |s.toClient|
    ensures Answered(s.(toClient := s.toClient[n..]), ask, got + s.toClient[..n])
  {
    match s.helper
    case Replying(rest) => MoveChunk(got, s.toClient, rest, n);
    case _ =>
      MoveChunk(got, s.toClient, [], n);
      assert got + s.toClient + [] == got + s.toClient;
      var more := got + s.toClient[..n];
      assert more + s.toClient[n..] + [] == more + s.toClient[n..];
  }

  lemma AnsweredIsPrefix(s: State, ask: Ask, got: Bytes)
    requires Answered(s, ask, got)
    ensures got <= s.handled[|s.handled| - 1].reply
    ensures got == s.handled[|s.handled| - 1].reply ==>
      s.toClient == [] && (s.helper == Reading([]) || s.helper == Dead)
  {
    var reply := s.handled[|s.handled| - 1].reply;
    assert got + s.toClient <= reply;
    assert |got + s.toClient| == |got| + |s.toClient|;
    if s.helper.Replying? { assert |reply| == |got| + |s.toClient| + |s.helper.rest|; }
  }

  lemma ClientReceiveKeepsInv(s: State, n: nat)
    requires Inv(s) && Enabled(s, ClientReceives(n))
    ensures Inv(Apply(s, ClientReceives(n)))
  {
    var ask, got := s.client.ask, s.client.got;
    var more := got + s.toClient[..n];
    assert Answered(s, ask, got);
    ReceivedChunk(s, ask, got, n);
    if |got| >= HEADER { assert more[..HEADER] == got[..HEADER]; }
    ReceivedKeepsInv(s.(toClient := s.toClient[n..]), ask, more);
  }

  /** A whole reply makes the client return, with nothing left on the way. */
  lemma ReturnKeepsInv(u: State, ask: Ask, result: Int32, output: Bytes)
    requires Chained(u.handled, u.resource) && Paired(u.handled, u.returned)
    requires u.handled != [] && Answered(u, ask, u.handled[|u.handled| - 1].reply)
    requires Accept(ask, u.handled[|u.handled| - 1].reply) == Some((result, output))
    ensures Inv(u.(client := Idle, returned := u.returned + [Return(ask, result, output)]))
  {
    AnsweredIsPrefix(u, ask, u.handled[|u.handled| - 1].reply);
  }

  /** What a client does with a beginning of a faithful reply. */
  lemma ReceivedCases(u: State, ask: Ask, more: Bytes, x: Exchange)
    requires Faithful(x) && more <= x.reply
    requires |more| > HEADER ==> GoodReply(ask, Decode(more[..HEADER]))
    ensures var t := Received(u, ask, more);
            || t == u.(client := Closed)
            || (more == x.reply && Accept(ask, more).Some?
                && t == u.(client := Idle, returned := u.returned + [Return(ask, Accept(ask, more).value.0,
                                                                            Accept(ask, more).value.1)]))
            || (t == u.(client := Receiving(ask, more))
                && (|more| < HEADER || (Wanted(more) > 0 && GoodReply(ask, Decode(more[..HEADER])))))
  {
    if |more| >= HEADER {
      ReplyPrefix(x, more);
      if |more| == HEADER { assert more[..HEADER] == more; }
    }
  }

  lemma ReceivedKeepsInv(u: State, ask: Ask, more: Bytes)
    requires Chained(u.handled, u.resource) && Paired(u.handled, u.returned)
    requires Answered(u, ask, more)
    requires |more| > HEADER ==> GoodReply(ask, Decode(more[..HEADER]))
    ensures Inv(Received(u, ask, more))
  {
    var x := u.handled[|u.handled| - 1];
    assert Faithful(x);
    AnsweredIsPrefix(u, ask, more);
    ReceivedCases(u, ask, more, x);
    var t := Received(u, ask, more);
    if t.client.Idle? {
      ReturnKeepsInv(u, ask, Accept(ask, more).value.0, Accept(ask, more).value.1);
    } else if t.client.Receiving? {
      assert Answered(t, ask, more);
    }
  }

  /** While the helper is taking a request, the client is sending it or waiting. */
  lemma ReadingMeansUnanswered(s: State)
    requires Inv(s) && !s.client.Closed? && s.helper.Reading?
    requires s.toHelper != [] || s.helper.taken != []
    ensures s.client.Sending? || (s.client.Receiving? && s.client.got == [])
    ensures Unanswered(s, s.client.ask, if s.client.Sending? then s.client.rest else [])
    ensures s.helper.taken + s.toHelper <= RequestBytes(s.client.ask)
    ensures s.helper.taken == RequestBytes(s.client.ask) ==> s.toHelper == [] && s.client.Receiving?
  {
    var rest := if s.client.Sending? then s.client.rest else [];
    assert |s.helper.taken + s.toHelper + rest| == |s.helper.taken| + |s.toHelper| + |rest|;
  }

  lemma HelperReadKeepsInv(s: State, n: nat)
    requires Inv(s) && Enabled(s, HelperReads(n))
    ensures Inv(Apply(s, HelperReads(n)))
  {
    if !s.client.Closed? {
      ReadingMeansUnanswered(s);
      var rest := if s.client.Sending? then s.client.rest else [];
      var taken := s.helper.taken + s.toHelper[..n];
      MoveChunk(s.helper.taken, s.toHelper, rest, n);
      assert taken <= RequestBytes(s.client.ask);
      if |taken| == HEADER {
        RequestPrefix(s.client.ask, taken);
        assert taken[..HEADER] == taken;
      }
      assert Unanswered(Apply(s, HelperReads(n)), s.client.ask, rest);
    }
  }

  lemma HandledKeepsInv(s: State, e: Env)
    requires Chained(s.handled, s.resource) && Paired(s.handled, s.returned)
    requires s.client.Receiving? && s.client.got == [] && Unanswered(s, s.client.ask, []) && s.toHelper == []
    ensures Inv(Handled(s, RequestBytes(s.client.ask), s.client.ask.capacity, e))
  {
    hide Answer, Accept, Decode;
    var ask := s.client.ask;
    var taken := RequestBytes(ask);
    var t := Handled(s, taken, ask.capacity, e);
    RequestPrefix(ask, taken);
    match Answer(s.resource, taken, e)
    case None =>
    case Some(answer) =>
      var x := Exchange(ask, e, s.resource, answer.0, answer.1);
      assert t.handled == s.handled + [x];
      assert Faithful(x);
      ReplyIsNotEmpty(x);
      assert [] + [] + t.helper.rest == x.reply;
      assert Answered(t, ask, []);
      assert Chained(t.handled, t.resource);
  }

  lemma HelperAnswerKeepsInv(s: State, e: Env)
    requires Inv(s) && Enabled(s, HelperAnswers(e))
    ensures Inv(Apply(s, HelperAnswers(e)))
  {
    if !s.client.Closed? {
      ReadingMeansUnanswered(s);
      RequestPrefix(s.client.ask, s.helper.taken);
      assert s.helper.taken == RequestBytes(s.client.ask);
      HandledKeepsInv(s, e);
    }
  }

  lemma HelperSendKeepsInv(s: State, n: nat)
    requires Inv(s) && Enabled(s, HelperSends(n))
    ensures Inv(Apply(s, HelperSends(n)))
  {
    hide Answer, Accept, Decode, Encode;
    if !s.client.Closed? {
      var ask, got, rest := s.client.ask, s.client.got, s.helper.rest;
      assert Answered(s, ask, got);
      assert rest == rest[..n] + rest[n..];
      assert got + s.toClient + rest == got + (s.toClient + rest[..n]) + rest[n..];
      if rest[n..] == [] { assert got + (s.toClient + rest[..n]) + [] == got + (s.toClient + rest[..n]); }
    }
  }

  lemma DyingKeepsInv(s: State)
    requires Inv(s)
    ensures Inv(s.(helper := Dead))
  {
    if s.client.Receiving? && Answered(s, s.client.ask, s.client.got) {
      assert Answered(s.(helper := Dead), s.client.ask, s.client.got);
    }
  }

  lemma StepKeepsInv(s: State, step: Step)
    requires Inv(s) && Enabled(s, step)
    ensures Inv(Apply(s, step))
  {
    match step
    case ClientAsks(ask) =>
      if s.helper.Reading? { assert [] + [] + RequestBytes(ask) == RequestBytes(ask); }
    case ClientSends(n) => ClientSendKeepsInv(s, n);
    case ClientReceives(n) => ClientReceiveKeepsInv(s, n);
    case ClientFails =>
    case HelperReads(n) => HelperReadKeepsInv(s, n);
    case HelperAnswers(e) => HelperAnswerKeepsInv(s, e);
    case HelperSends(n) => HelperSendKeepsInv(s, n);
    case HelperDies => DyingKeepsInv(s);
  }

  lemma {:induction false} RunKeepsInv(s: State, steps: seq<Step>)
    requires Inv(s) && IsRun(s, steps)
    ensures Inv(Final(s, steps))
    decreases |steps|
  {
    if steps != [] {
      StepKeepsInv(s, steps[0]);
      RunKeepsInv(Apply(s, steps[0]), steps[1..]);
    }
  }

  /** Requests and replies never cross.  Whenever the stub is between calls with
      its descriptor open, both streams are empty, the helper is at its loop
      head (or gone), and the i-th value returned is what the helper's answer to
      the i-th request says. */
  lemma RequestsAndRepliesNeverCross(steps: seq<Step>)
    requires IsRun(Beginning, steps)
    ensures var s := Final(Beginning, steps);
            s.client.Idle? ==>
              && s.toHelper == [] && s.toClient == []
              && (s.helper == Reading([]) || s.helper == Dead)
              && |s.returned| == |s.handled|
              && Paired(s.handled, s.returned)
              && Chained(s.handled, s.resource)
  {
    RunKeepsInv(Beginning, steps);
  }

  /** After any failure the descriptor stays closed: no call returns anything,
      adds a byte to what is under way to the helper, or takes one of what
      arrives from it. */
  lemma {:induction false} ClosedForGood(s: State, steps: seq<Step>)
    requires s.client.Closed? && IsRun(s, steps)
    ensures var t := Final(s, steps);
            && t.client.Closed? && t.returned == s.returned
            && |t.toHelper| <= |s.toHelper| && t.toHelper == s.toHelper[|s.toHelper| - |t.toHelper|..]
            && s.toClient <= t.toClient
    decreases |steps|
  {
    if steps != [] { ClosedForGood(Apply(s, steps[0]), steps[1..]); }
  }

  /** So every value a caller gets over any such session is the library's own:
      what the call returns directly on the resource as the earlier calls left
      it, byte for byte. */
  lemma EveryReturnIsTheLibrarys(steps: seq<Step>, i: nat, call: Call)
    requires IsRun(Beginning, steps)
    requires var s := Final(Beginning, steps);
             && s.client.Idle? && i < |s.returned| == |s.handled|
             && Prepare(call) == SendAsk(s.returned[i].ask)
             && Fits(s.handled[i].before, call) && InLimit(call)
    ensures var s := Final(Beginning, steps);
            var (x, r) := (s.handled[i], s.returned[i]);
            && Direct(x.before, call, x.env) == (x.after, Returned(call, r.result), r.output)
            && x.before == if i == 0 then Unopened else s.handled[i - 1].after
  {
    RunKeepsInv(Beginning, steps);
    var s := Final(Beginning, steps);
    assert Faithful(s.handled[i]);
    StubRefinesLibrary(s.handled[i].before, call, s.handled[i].env);
    if i > 0 { assert s.handled[i - 1].after == s.handled[i - 1 + 1].before; }
  }

  // ----- One resource per child -----

  predicate IsOpening(operation: Word) {
    operation == OPEN_PEER || operation == OPEN_CAPTURE || operation == OPEN_PLAYBACK
  }

  /** What a successful opening makes of the helper. */
  function OpenedBy(operation: Word): Resource {
    if operation == OPEN_PEER then PeerResource(P.NewPeer)
    else AudioResource(A.Opened(operation == OPEN_CAPTURE))
  }

  predicate SameKind(a: Resource, b: Resource) {
    (a.PeerResource? && b.PeerResource?) || (a.AudioResource? && b.AudioResource? && a.audio.capture == b.audio.capture)
  }

  /** An opened helper answers no second opening and never changes its kind. */
  lemma AnswerKeepsKind(r: Resource, request: Bytes, e: Env)
    requires !r.Unopened? && Answer(r, request, e).Some?
    ensures SameKind(r, Answer(r, request, e).value.0)
    ensures !IsOpening(Decode(request[..HEADER]).operation)
  {
  }

  /** Once opened, a child serves the same peer or device for the whole session. */
  lemma {:induction false} OneResourcePerChild(s: State, steps: seq<Step>)
    requires IsRun(s, steps) && !s.resource.Unopened?
    ensures SameKind(s.resource, Final(s, steps).resource)
    decreases |steps|
  {
    if steps != [] {
      var step := steps[0];
      if step.HelperAnswers? && Answer(s.resource, s.helper.taken, step.env).Some? {
        AnswerKeepsKind(s.resource, s.helper.taken, step.env);
      }
      assert !Apply(s, step).resource.Unopened? && SameKind(s.resource, Apply(s, step).resource);
      OneResourcePerChild(Apply(s, step), steps[1..]);
    }
  }

  /** The first request answered is an opening without payload, and the caller
      is told 0 exactly when the helper now holds what was asked for. */
  lemma FirstRequestOpens(steps: seq<Step>)
    requires IsRun(Beginning, steps)
    requires var s := Final(Beginning, steps); s.client.Idle? && s.returned != []
    ensures var s := Final(Beginning, steps);
            && |s.handled| == |s.returned|
            && var (x, r) := (s.handled[0], s.returned[0]);
            && IsOpening(x.ask.operation) && x.ask.payload == [] && r.output == []
            && x.after == (if x.env.opens then OpenedBy(x.ask.operation) else Unopened)
            && r.result == (if x.env.opens then 0 else -1)
  {
    RunKeepsInv(Beginning, steps);
    var s := Final(Beginning, steps);
    var x := s.handled[0];
    assert Faithful(x);
    RequestSurvivesTheWire(Unopened, x.ask, x.env);
    ReplySurvivesTheWire(x.ask, if x.env.opens then 0 else -1, []);
  }
}
