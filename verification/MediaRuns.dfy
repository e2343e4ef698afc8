/** The two ends as they run, composed: whatever the transport does, a request
    of the client against the loop of the helper is a run of the session. */
module MediaRuns {
  import opened ByteStrings
  import opened MediaEndpoints
  import opened MediaStub
  import opened MediaWire
  import opened MediaSession
  import opened Wrappers

  lemma {:induction false} Extend(s: State, steps: seq<Step>, last: Step) returns (longer: seq<Step>)
    requires IsRun(s, steps) && Enabled(Final(s, steps), last)
    ensures longer == steps + [last]
    ensures IsRun(s, longer) && Final(s, longer) == Apply(Final(s, steps), last)
    decreases |steps|
  {
    longer := steps + [last];
    if steps == [] {
      assert longer[1..] == [];
    } else {
      var rest := Extend(Apply(s, steps[0]), steps[1..], last);
      assert longer[1..] == rest;
    }
  }

  lemma NoSteps(s: State)
    ensures IsRun(s, []) && Final(s, []) == s
  {
  }

  /** The stub is between calls. */
  predicate Between(s: State) {
    s.client.Idle? && s.toHelper == [] && s.toClient == [] && (s.helper == Reading([]) || s.helper == Dead)
  }

  /** All that the helper's loop would write for one whole request. */
  function Emitted(s: State, ask: Ask, e: Env): Bytes
    requires WithinLimit(ask)
  {
    if s.helper.Dead? then [] else ReplyStream(s.resource, RequestBytes(ask), [e])
  }

  lemma EmittedIsTheAnswer(s: State, ask: Ask, e: Env)
    requires WithinLimit(ask) && !s.helper.Dead?
    ensures Emitted(s, ask, e)
         == match Answer(s.resource, RequestBytes(ask), e)
            case None => []
            case Some(x) => x.1
  {
    var m := Message(MAGIC, ask.operation, ask.argument, |ask.payload|);
    MessageRoundTrip(m);
    assert RequestBytes(ask)[..HEADER] == Encode(m);
    assert RequestBytes(ask)[..HEADER + m.length] == RequestBytes(ask);
    assert RequestBytes(ask)[HEADER + m.length..] == [];
    hide Answer, RequestBytes;
    match Answer(s.resource, RequestBytes(ask), e)
    case None =>
    case Some(x) =>
      assert [e][1..] == [] && ReplyStream(x.0, [], []) == [];
      assert x.1 + [] == x.1;
  }

  // ----- One request, step by step -----

  /** The client asked and put a beginning of its request under way. */
  function Asked(s: State, ask: Ask, out: Bytes): State
    requires WithinLimit(ask) && out <= RequestBytes(ask)
  {
    s.(toHelper := out,
       client := if out == RequestBytes(ask) then Receiving(ask, []) else Sending(ask, RequestBytes(ask)[|out|..]))
  }

  lemma AskingIsARun(s: State, ask: Ask, out: Bytes) returns (steps: seq<Step>)
    requires Between(s) && WithinLimit(ask) && out <= RequestBytes(ask)
    ensures IsRun(s, steps) && Final(s, steps) == Asked(s, ask, out)
  {
    hide IsRun, Final, RequestBytes;
    NoSteps(s);
    steps := Extend(s, [], ClientAsks(ask));
    if out != [] { steps := Extend(s, steps, ClientSends(|out|)); }
  }

  /** The helper took the request, handled it and put a beginning of its reply
      under way. */
  function Replied(s: State, ask: Ask, e: Env, arriving: Bytes): State
    requires WithinLimit(ask) && Answer(s.resource, RequestBytes(ask), e).Some?
    requires arriving <= Answer(s.resource, RequestBytes(ask), e).value.1
  {
    var (after, reply) := Answer(s.resource, RequestBytes(ask), e).value;
    var left := reply[|arriving|..];
    s.(client := Receiving(ask, []), toHelper := [], toClient := arriving, resource := after,
       helper := if left != [] then Replying(left) else if after.Unopened? then Dead else Reading([]),
       handled := s.handled + [Exchange(ask, e, s.resource, after, reply)])
  }

  /** The helper reads the header, or what follows it, in one piece. */
  lemma HelperReadsPart(s: State, ask: Ask, k: nat, n: nat)
    requires WithinLimit(ask)
    requires (k == 0 && n == HEADER) || (k == HEADER && 0 < n == |RequestBytes(ask)| - HEADER)
    requires s.helper == Reading(RequestBytes(ask)[..k]) && s.toHelper == RequestBytes(ask)[k..]
    ensures Enabled(s, HelperReads(n))
    ensures Apply(s, HelperReads(n))
         == s.(toHelper := RequestBytes(ask)[k + n..], helper := Reading(RequestBytes(ask)[..k + n]))
  {
    var whole := RequestBytes(ask);
    RequestPrefix(ask, whole[..HEADER]);
    assert whole[..HEADER][..HEADER] == whole[..HEADER];
    hide RequestBytes, Decode;
    ReadsPart(s, whole, k, n);
  }

  lemma ReadsPart(s: State, whole: Bytes, k: nat, n: nat)
    requires k + n <= |whole| && 0 < n <= Wanted(whole[..k])
    requires k + n == HEADER ==> GoodRequest(Decode(whole[..HEADER]))
    requires s.helper == Reading(whole[..k]) && s.toHelper == whole[k..]
    ensures Enabled(s, HelperReads(n))
    ensures Apply(s, HelperReads(n)) == s.(toHelper := whole[k + n..], helper := Reading(whole[..k + n]))
  {
    hide Wanted, Decode;
    assert whole[..k] + whole[k..][..n] == whole[..k + n];
    assert whole[k..][n..] == whole[k + n..];
  }

  lemma TakingIsARun(s: State, ask: Ask, begun: seq<Step>) returns (steps: seq<Step>)
    requires Between(s) && s.helper.Reading? && WithinLimit(ask)
    requires IsRun(s, begun) && Final(s, begun) == Asked(s, ask, RequestBytes(ask))
    ensures IsRun(s, steps)
    ensures Final(s, steps) == s.(client := Receiving(ask, []), helper := Reading(RequestBytes(ask)))
  {
    hide IsRun, Final, Enabled, Apply, RequestBytes;
    var whole := RequestBytes(ask);
    assert whole[..0] == [] && whole[0..] == whole && whole[..|whole|] == whole && whole[|whole|..] == [];
    HelperReadsPart(Final(s, begun), ask, 0, HEADER);
    steps := Extend(s, begun, HelperReads(HEADER));
    if |whole| > HEADER {
      HelperReadsPart(Final(s, steps), ask, HEADER, |whole| - HEADER);
      steps := Extend(s, steps, HelperReads(|whole| - HEADER));
    }
  }

  lemma ReplyingIsARun(s: State, ask: Ask, e: Env, arriving: Bytes, begun: seq<Step>) returns (steps: seq<Step>)
    requires Between(s) && s.helper.Reading? && WithinLimit(ask)
    requires arriving != [] && Answer(s.resource, RequestBytes(ask), e).Some?
    requires arriving <= Answer(s.resource, RequestBytes(ask), e).value.1
    requires IsRun(s, begun) && Final(s, begun) == Asked(s, ask, RequestBytes(ask))
    ensures IsRun(s, steps) && Final(s, steps) == Replied(s, ask, e, arriving)
  {
    hide IsRun, Final;
    var whole := RequestBytes(ask);
    steps := TakingIsARun(s, ask, begun);
    RequestPrefix(ask, whole);
    var asked := Ask(ask.operation, ask.argument, whole[HEADER..], ask.capacity);
    assert asked == ask;
    hide RequestBytes, Decode, Encode, Answer;
    steps := Extend(s, steps, HelperAnswers(e));
    steps := Extend(s, steps, HelperSends(|arriving|));
  }

  /** Where a call leaves the session that had come to `s`. */
  function Ended(s: State, ask: Ask, got: Bytes): State
    requires got <= s.toClient
  {
    s.(toClient := s.toClient[|got|..],
       client := if Accept(ask, got).Some? then Idle else Closed,
       returned := match Accept(ask, got)
                   case None => s.returned
                   case Some(x) => s.returned + [Return(ask, x.0, x.1)])
  }

  /** The client receives a piece of what is under way. */
  lemma ClientReceivesPart(s: State, ask: Ask, stream: Bytes, k: nat, n: nat)
    requires 0 < n && k + n <= |stream| && s.client == Receiving(ask, stream[..k]) && s.toClient == stream[k..]
    requires n <= Wanted(stream[..k])
    ensures Enabled(s, ClientReceives(n))
    ensures Apply(s, ClientReceives(n)) == Received(s.(toClient := stream[k + n..]), ask, stream[..k + n])
  {
    hide Wanted, Received;
    assert stream[..k] + stream[k..][..n] == stream[..k + n];
    assert stream[k..][n..] == stream[k + n..];
  }

  lemma FailingIsARun(start: State, begun: seq<Step>, ask: Ask, got: Bytes) returns (steps: seq<Step>)
    requires IsRun(start, begun) && Final(start, begun).client == Receiving(ask, got)
    ensures IsRun(start, steps) && Final(start, steps) == Final(start, begun).(client := Closed)
  {
    hide IsRun, Final;
    steps := Extend(start, begun, ClientFails);
  }

  lemma ReceivingIsARun(start: State, begun: seq<Step>, ask: Ask, got: Bytes) returns (steps: seq<Step>)
    requires IsRun(start, begun)
    requires var s := Final(start, begun); s.client == Receiving(ask, []) && got <= s.toClient
    requires CutShort(ask, got) || Accept(ask, got).Some?
    ensures IsRun(start, steps) && Final(start, steps) == Ended(Final(start, begun), ask, got)
  {
    hide IsRun, Final, Enabled, Apply, Decode, GoodReply;
    var stream := Final(start, begun).toClient;
    assert stream[..0] == [] && stream[0..] == stream && got == stream[..|got|];
    steps := begun;
    if |got| < HEADER {
      CutShortIsNotAccepted(ask, got);
      if got != [] {
        ClientReceivesPart(Final(start, steps), ask, stream, 0, |got|);
        steps := Extend(start, steps, ClientReceives(|got|));
      }
      steps := FailingIsARun(start, steps, ask, got);
    } else {
      ClientReceivesPart(Final(start, steps), ask, stream, 0, HEADER);
      steps := Extend(start, steps, ClientReceives(HEADER));
      steps := ReceivingTheRestIsARun(start, steps, ask, stream, got, Final(start, begun));
    }
  }

  /** A header that announces nothing ends the call. */
  lemma HeaderEnds(s: State, ask: Ask, head: Bytes)
    requires |head| == HEADER && head <= s.toClient && !(GoodReply(ask, Decode(head)) && Decode(head).length > 0)
    ensures Received(s.(toClient := s.toClient[HEADER..]), ask, head) == Ended(s, ask, head)
  {
    assert head[..HEADER] == head;
    hide Decode;
  }

  /** A good header and some of what it announces, or all of it. */
  lemma RestEnds(s: State, ask: Ask, got: Bytes)
    requires HEADER <= |got| && got <= s.toClient
    requires GoodReply(ask, Decode(got[..HEADER])) && Decode(got[..HEADER]).length > 0
    requires |got| <= HEADER + Decode(got[..HEADER]).length
    ensures Received(s.(toClient := s.toClient[|got|..]), ask, got)
         == if CutShort(ask, got) then s.(toClient := s.toClient[|got|..], client := Receiving(ask, got))
            else Ended(s, ask, got)
  {
    assert |got| == HEADER ==> got[..HEADER] == got;
    hide Decode, GoodReply;
  }

  /** A call receives no more than the header announces, and nothing after a
      header that announces nothing. */
  lemma GotFits(ask: Ask, got: Bytes)
    requires |got| >= HEADER && (CutShort(ask, got) || Accept(ask, got).Some?)
    ensures var m := Decode(got[..HEADER]);
            |got| <= HEADER + if GoodReply(ask, m) then m.length else 0
  {
    hide Decode;
  }

  /** After the header. */
  lemma ReceivingTheRestIsARun(
    start: State, begun: seq<Step>, ask: Ask, stream: Bytes, got: Bytes, s: State) returns (steps: seq<Step>)
    requires IsRun(start, begun) && |got| >= HEADER && got <= stream && s.toClient == stream
    requires Final(start, begun) == Received(s.(toClient := stream[HEADER..]), ask, stream[..HEADER])
    requires CutShort(ask, got) || Accept(ask, got).Some?
    ensures IsRun(start, steps) && Final(start, steps) == Ended(s, ask, got)
  {
    hide IsRun, Final;
    var head := stream[..HEADER];
    assert head == got[..HEADER];
    var m := Decode(head);
    GotFits(ask, got);
    hide Decode, GoodReply, Received, Accept, CutShort, Ended;
    if GoodReply(ask, m) && m.length > 0 {
      steps := ReceivingTheBodyIsARun(start, begun, ask, stream, got, s);
    } else {
      steps := begun;
      HeaderEnds(s, ask, head);
      assert got == head;
    }
  }

  lemma ReceivingTheBodyIsARun(
    start: State, begun: seq<Step>, ask: Ask, stream: Bytes, got: Bytes, s: State) returns (steps: seq<Step>)
    requires IsRun(start, begun) && |got| >= HEADER && got <= stream && s.toClient == stream
    requires var m := Decode(got[..HEADER]); GoodReply(ask, m) && 0 < m.length && |got| <= HEADER + m.length
    requires Final(start, begun) == Received(s.(toClient := stream[HEADER..]), ask, stream[..HEADER])
    requires CutShort(ask, got) || Accept(ask, got).Some?
    ensures IsRun(start, steps) && Final(start, steps) == Ended(s, ask, got)
  {
    hide IsRun, Final, Enabled, Apply;
    var head := stream[..HEADER];
    assert head == got[..HEADER] && head[..HEADER] == head && got == stream[..|got|];
    HeaderIsCutShort(ask, head);
    CutShortEnds(s, ask, got);
    RestEnds(s, ask, head);
    RestEnds(s, ask, got);
    assert |got| - HEADER <= Wanted(head);
    hide Decode, GoodReply, Received, Accept, CutShort, Ended, Wanted;
    steps := begun;
    if |got| > HEADER {
      ClientReceivesPart(Final(start, steps), ask, stream, HEADER, |got| - HEADER);
      steps := Extend(start, steps, ClientReceives(|got| - HEADER));
    }
    if CutShort(ask, got) { steps := FailingIsARun(start, steps, ask, got); }
  }

  lemma HeaderIsCutShort(ask: Ask, head: Bytes)
    requires |head| == HEADER && GoodReply(ask, Decode(head)) && Decode(head).length > 0
    ensures CutShort(ask, head)
  {
    assert head[..HEADER] == head;
  }

  lemma CutShortEnds(s: State, ask: Ask, got: Bytes)
    requires got <= s.toClient
    ensures CutShort(ask, got) ==>
      s.(toClient := s.toClient[|got|..], client := Receiving(ask, got)).(client := Closed) == Ended(s, ask, got)
  {
    if CutShort(ask, got) { CutShortIsNotAccepted(ask, got); }
  }

  // ----- The ends themselves -----

  /** What the client accepts of the helper's reply is all of it. */
  lemma AcceptedIsWhole(s: State, ask: Ask, e: Env, got: Bytes)
    requires WithinLimit(ask) && got <= Emitted(s, ask, e) && Accept(ask, got).Some?
    ensures !s.helper.Dead? && got == Emitted(s, ask, e) && got != []
  {
    hide RequestBytes, Answer;
    if !s.helper.Dead? {
      EmittedIsTheAnswer(s, ask, e);
      match Answer(s.resource, RequestBytes(ask), e)
      case None =>
      case Some(x) =>
        assert Faithful(Exchange(ask, e, s.resource, x.0, x.1));
        ReplyPrefix(Exchange(ask, e, s.resource, x.0, x.1), got);
    }
  }

  /** How a call leaves the session: `arriving` is what of the helper's reply the
      transport let through, and `got` what the client received of it. */
  ghost predicate CallEnds(s: State, t: State, ask: Ask, e: Env, out: Bytes, arriving: Bytes, got: Bytes)
    requires WithinLimit(ask) && got <= arriving
  {
    && t.client == (if Accept(ask, got).Some? then Idle else Closed)
    && t.returned == (match Accept(ask, got)
                      case None => s.returned
                      case Some(x) => s.returned + [Return(ask, x.0, x.1)])
    && t.toClient == (if got == [] then [] else arriving[|got|..])
    && (if got == [] then t.toHelper == out && t.helper == s.helper && t.resource == s.resource
        else t.toHelper == [] && Answer(s.resource, RequestBytes(ask), e).Some?
             && t.resource == Answer(s.resource, RequestBytes(ask), e).value.0)
    && (Accept(ask, got).Some? ==> Between(t) && (t.helper.Dead? <==> t.resource.Unopened?))
  }

  /** A call of the client, in the session that its bytes belong to. */
  lemma CallIsARun(s: State, ask: Ask, e: Env, out: Bytes, arriving: Bytes, got: Bytes) returns (steps: seq<Step>)
    requires Between(s) && WithinLimit(ask)
    requires out <= RequestBytes(ask) && arriving <= Emitted(s, ask, e) && got <= arriving
    requires CutShort(ask, got) || Accept(ask, got).Some?
    requires got != [] || Accept(ask, got).Some? ==> out == RequestBytes(ask)
    ensures IsRun(s, steps) && CallEnds(s, Final(s, steps), ask, e, out, arriving, got)
  {
    if Accept(ask, got).Some? { AcceptedIsWhole(s, ask, e, got); }
    hide IsRun, Final, Accept, RequestBytes, Answer, CallEnds, Between, Emitted;
    if got == [] {
      steps := UnansweredCallIsARun(s, ask, e, out, arriving);
    } else {
      steps := AnsweredCallIsARun(s, ask, e, arriving, got);
    }
  }

  lemma UnansweredCallIsARun(s: State, ask: Ask, e: Env, out: Bytes, arriving: Bytes) returns (steps: seq<Step>)
    requires Between(s) && WithinLimit(ask) && out <= RequestBytes(ask)
    ensures IsRun(s, steps) && CallEnds(s, Final(s, steps), ask, e, out, arriving, [])
  {
    hide IsRun, Final, Accept, RequestBytes, Answer, Emitted;
    steps := AskingIsARun(s, ask, out);
    CutShortIsNotAccepted(ask, []);
    NothingReceived(s, ask, out, steps);
    steps := Extend(s, steps, ClientFails);
  }

  lemma AnsweredCallEnds(s: State, ask: Ask, e: Env, arriving: Bytes, got: Bytes)
    requires Between(s) && WithinLimit(ask) && Answer(s.resource, RequestBytes(ask), e).Some?
    requires var reply := Answer(s.resource, RequestBytes(ask), e).value.1;
             && arriving <= reply && got <= arriving && got != []
             && (CutShort(ask, got) || (Accept(ask, got).Some? && got == reply))
    ensures CallEnds(s, Ended(Replied(s, ask, e, arriving), ask, got), ask, e, RequestBytes(ask), arriving, got)
  {
    if CutShort(ask, got) { CutShortIsNotAccepted(ask, got); }
    hide Accept, RequestBytes, Answer, CutShort;
    var reply := Answer(s.resource, RequestBytes(ask), e).value.1;
    assert got == reply ==> arriving == reply && reply[|arriving|..] == [];
    assert got == arriving ==> arriving[|got|..] == [];
  }

  lemma AnsweredCallIsARun(s: State, ask: Ask, e: Env, arriving: Bytes, got: Bytes) returns (steps: seq<Step>)
    requires Between(s) && WithinLimit(ask)
    requires arriving <= Emitted(s, ask, e) && got <= arriving && got != []
    requires CutShort(ask, got) || (Accept(ask, got).Some? && got == Emitted(s, ask, e))
    ensures IsRun(s, steps) && CallEnds(s, Final(s, steps), ask, e, RequestBytes(ask), arriving, got)
  {
    EmittedIsTheAnswer(s, ask, e);
    hide IsRun, Final, Accept, RequestBytes, Answer, Emitted, CallEnds, Between, CutShort;
    AnsweredCallEnds(s, ask, e, arriving, got);
    steps := AskingIsARun(s, ask, RequestBytes(ask));
    steps := ReplyingIsARun(s, ask, e, arriving, steps);
    steps := ReceivingIsARun(s, steps, ask, got);
  }

  lemma NothingReceived(s: State, ask: Ask, out: Bytes, steps: seq<Step>)
    requires Between(s) && WithinLimit(ask) && out <= RequestBytes(ask)
    requires IsRun(s, steps) && Final(s, steps) == Asked(s, ask, out)
    ensures Enabled(Final(s, steps), ClientFails)
  {
  }

  lemma {:induction false} Append(s: State, a: seq<Step>, b: seq<Step>)
    requires IsRun(s, a) && IsRun(Final(s, a), b)
    ensures IsRun(s, a + b) && Final(s, a + b) == Final(Final(s, a), b)
    decreases |a|
  {
    if a == [] {
      assert a + b == b;
    } else {
      assert (a + b)[1..] == a[1..] + b && (a + b)[0] == a[0];
      Append(Apply(s, a[0]), a[1..], b);
    }
  }

  /** What the helper's loop writes in answer to one request, over any transport. */
  method Helped(resource: Resource, ask: Ask, plan: seq<Attempt>, e: Env) returns (written: Bytes)
    requires WithinLimit(ask)
    ensures written <= ReplyStream(resource, RequestBytes(ask), [e])
  {
    hide ReplyStream, RequestBytes, Ample;
    var socket := new Socket(RequestBytes(ask), plan);
    var bytes := new byte[LIMIT];
    var after, more := ServeOne(socket, bytes, resource, e, [e]);
    assert [e][1..] == [];
    NothingWithoutRounds(after, socket.incoming);
    written := socket.sent;
    assert [] + ReplyStream(resource, RequestBytes(ask), [e]) == ReplyStream(resource, RequestBytes(ask), [e]);
    assert written + [] == written;
  }

  lemma NothingWithoutRounds(r: Resource, input: Bytes)
    ensures ReplyStream(r, input, []) == []
  {
  }

  lemma AcceptedFits(ask: Ask, got: Bytes)
    requires Accept(ask, got).Some?
    ensures |Accept(ask, got).value.1| <= ask.capacity
  {
  }

  /** The client's descriptor, the helper's resource while its loop runs, and the
      run of the session that their bytes have made so far. */
  ghost predicate InStep(child: MediaChild, alive: bool, resource: Resource, steps: seq<Step>)
    reads child
  {
    && IsRun(Beginning, steps)
    && var s := Final(Beginning, steps);
       if child.open
       then Between(s) && s.resource == resource && (alive <==> !s.helper.Dead?)
       else s.client.Closed?
  }

  /** One call of the client against one round of the helper's loop.  The plans
      are the transport's: any chunks, interruptions and failures at either end. */
  method RoundTrip(child: MediaChild, alive: bool, resource: Resource, ask: Ask, output: array<byte>,
                   toClient: seq<Attempt>, toHelper: seq<Attempt>, e: Env, ghost begun: seq<Step>)
    returns (result: Int32, aliveAfter: bool, after: Resource, ghost bytes: Bytes, ghost steps: seq<Step>)
    requires child.open && InStep(child, alive, resource, begun)
    requires WithinLimit(ask) && ask.capacity <= output.Length
    modifies child`open, child.socket, output
    ensures InStep(child, aliveAfter, after, steps)
    ensures child.open ==>
      && bytes <= output[..]
      && Final(Beginning, steps).returned == Final(Beginning, begun).returned + [Return(ask, result, bytes)]
    ensures !child.open ==> result == -1 && Final(Beginning, steps).returned == Final(Beginning, begun).returned
  {
    hide IsRun, Final, Answer, Accept, RequestBytes;
    ghost var s := Final(Beginning, begun);
    var written := [];
    if alive { written := Helped(resource, ask, toHelper, e); }
    child.socket.incoming, child.socket.plan, child.socket.sent := written, toClient, [];
    ghost var got;
    result, got := child.Request(ask, output, []);
    after := resource;
    if child.open {
      after := NextResource(resource, ask, e);
    }
    aliveAfter := !after.Unopened?;
    assert [] + RequestBytes(ask) == RequestBytes(ask);
    bytes := [];
    if child.open {
      AcceptedIsWhole(s, ask, e, got);
      AcceptedFits(ask, got);
      bytes := Accept(ask, got).value.1;
      assert output[..|bytes|] <= output[..];
    } else {
      CutShortIsNotAccepted(ask, got);
    }
    ghost var run := CallIsARun(s, ask, e, child.socket.sent, written, got);
    Append(Beginning, begun, run);
    steps := begun + run;
  }

  /** What the caller was told, against what the session returned: the first
      calls got their values, and once one failed all get -1. */
  predicate Told(asks: seq<Ask>, results: seq<Int32>, returned: seq<Return>) {
    && |returned| <= |results| <= |asks|
    && (forall i :: 0 <= i < |returned| ==> returned[i].ask == asks[i] && returned[i].result == results[i])
    && forall i :: |returned| <= i < |results| ==> results[i] == -1
  }

  lemma ToldOneMore(asks: seq<Ask>, results: seq<Int32>, returned: seq<Return>, result: Int32, output: Bytes)
    requires Told(asks, results, returned) && |results| < |asks|
    ensures result == -1 ==> Told(asks, results + [result], returned)
    ensures |returned| == |results| ==>
      Told(asks, results + [result], returned + [Return(asks[|results|], result, output)])
  {
  }

  /** Any calls of one client against one helper, over any transport at either
      end: there is a run of the session in which they return what they returned
      here.  A call that fails leaves the client closed, and so all later ones. */
  method Converse(asks: seq<Ask>, toClient: seq<seq<Attempt>>, toHelper: seq<seq<Attempt>>, envs: seq<Env>)
    returns (results: seq<Int32>, ghost steps: seq<Step>)
    requires |asks| == |toClient| == |toHelper| == |envs|
    requires forall ask :: ask in asks ==> WithinLimit(ask)
    ensures IsRun(Beginning, steps) && |results| == |asks|
    ensures Told(asks, results, Final(Beginning, steps).returned)
    ensures if |Final(Beginning, steps).returned| == |asks| then Between(Final(Beginning, steps))
            else Final(Beginning, steps).client.Closed?
  {
    hide IsRun, Final, Between;
    var socket := new Socket([], []);
    var child := new MediaChild(socket);
    var resource, alive := Unopened, true;
    results, steps := [], [];
    BeginningIsBetween();
    for i := 0 to |asks|
      invariant |results| == i && InStep(child, alive, resource, steps)
      invariant Told(asks, results, Final(Beginning, steps).returned)
      invariant fresh(child) && fresh(child.socket)
      invariant child.open <==> |Final(Beginning, steps).returned| == i
    {
      var ask := asks[i];
      assert ask in asks;
      ghost var returned := Final(Beginning, steps).returned;
      var result: Int32 := -1;
      if child.open {
        var output := new byte[ask.capacity];
        ghost var bytes: Bytes;
        result, alive, resource, bytes, steps :=
          RoundTrip(child, alive, resource, ask, output, toClient[i], toHelper[i], envs[i], steps);
        ToldOneMore(asks, results, returned, result, bytes);
      } else {
        ToldOneMore(asks, results, returned, result, []);
      }
      results := results + [result];
    }
  }

  lemma BeginningIsBetween()
    ensures IsRun(Beginning, []) && Final(Beginning, []) == Beginning && Between(Beginning)
  {
  }

  /** The helper's resource after a request that it answered. */
  function NextResource(r: Resource, ask: Ask, e: Env): Resource
    requires WithinLimit(ask)
  {
    match Answer(r, RequestBytes(ask), e)
    case None => r
    case Some(x) => x.0
  }
}
