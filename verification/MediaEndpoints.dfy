/** The two ends of the media protocol as they run: the client's request over
    its descriptor, and the helper's request loop. */
module MediaEndpoints {
  import opened ByteStrings
  import opened MediaStub
  import opened MediaWire
  import opened Wrappers

  method Store(b: Bytes) returns (a: array<byte>)
    ensures fresh(a) && a[..] == b
  {
    a := new byte[|b|](i requires 0 <= i < |b| => b[i]);
  }

  /** What a reader took when it left the rest of a stream. */
  predicate Took(before: Bytes, got: Bytes, after: Bytes) {
    before == got + after
  }

  /** The stub's child process: a descriptor that a failure closes for good. */
  class MediaChild {
    const socket: Socket
    var open: bool

    constructor (socket: Socket)
      ensures this.socket == socket && open
    {
      this.socket := socket;
      open := true;
    }

    /** Sends the request and receives the reply header. */
    method Exchange(ask: Ask) returns (header: Option<Message>, ghost got: Bytes)
      requires WithinLimit(ask)
      modifies socket
      ensures socket.sent <= old(socket.sent) + RequestBytes(ask) && old(socket.sent) <= socket.sent
      ensures header.Some? ==>
        && socket.sent == old(socket.sent) + RequestBytes(ask)
        && |old(socket.incoming)| >= HEADER && header.value == Decode(old(socket.incoming)[..HEADER])
        && socket.incoming == old(socket.incoming)[HEADER..]
      ensures Took(old(socket.incoming), got, socket.incoming)
      ensures header.None? ==> |got| < HEADER && (got != [] ==> socket.sent == old(socket.sent) + RequestBytes(ask))
      ensures header.Some? ==> |got| == HEADER
      ensures Steady(old(socket.plan)) && |RequestBytes(ask)| + HEADER <= Moves(old(socket.plan))
              && |old(socket.incoming)| >= HEADER
              ==> && header.Some? && Steady(socket.plan)
                  && Moves(socket.plan) >= Moves(old(socket.plan)) - |RequestBytes(ask)| - HEADER
    {
      var head := Encode(Message(MAGIC, ask.operation, ask.argument, |ask.payload|));
      var message := Store(head);
      var payload := Store(ask.payload);
      ghost var sent := socket.sent;
      var ok, moved := socket.Send(message, 0, HEADER);
      assert message[0..moved] == head[..moved];
      assert sent + head[..moved] <= sent + RequestBytes(ask);
      if !ok { return None, []; }
      assert socket.sent == sent + head;
      ok, moved := socket.Send(payload, 0, |ask.payload|);
      assert payload[0..moved] == ask.payload[..moved];
      assert sent + head + ask.payload[..moved] <= sent + RequestBytes(ask);
      if !ok { return None, []; }
      assert ask.payload[..moved] == ask.payload && socket.sent == sent + RequestBytes(ask);
      ghost var before := socket.incoming;
      ok, moved := socket.Receive(message, 0, HEADER);
      got := before[..moved];
      if !ok { return None, got; }
      assert message[..] == message[0..0 + moved];
      header := Some(Decode(message[..]));
    }

    /** media_request.  The descriptor stays open only when the whole request went
        out and one acceptable reply came back, which is what is returned. */
    method Request(ask: Ask, output: array<byte>, ghost reply: Bytes) returns (result: Int32, ghost got: Bytes)
      requires ask.capacity <= output.Length
      modifies this`open, socket, output
      ensures !old(open) || !WithinLimit(ask) ==>
        && result == -1 && open == old(open) && socket.sent == old(socket.sent)
        && socket.incoming == old(socket.incoming) && output[..] == old(output[..])
      ensures open ==> old(open)
      ensures !open ==> result == -1
      ensures old(open) && WithinLimit(ask) ==>
        old(socket.sent) <= socket.sent <= old(socket.sent) + RequestBytes(ask)
      ensures open && WithinLimit(ask) ==>
        && socket.sent == old(socket.sent) + RequestBytes(ask)
        && Accept(ask, got).Some?
        && result == Accept(ask, got).value.0
        && Accept(ask, got).value.1 == output[..|Accept(ask, got).value.1|]
      ensures Took(old(socket.incoming), got, socket.incoming)
      ensures old(open) && !open ==>
        CutShort(ask, got) && (got != [] ==> socket.sent == old(socket.sent) + RequestBytes(ask))
      ensures old(open) && WithinLimit(ask) && reply <= old(socket.incoming) && Accept(ask, reply).Some?
              && Steady(old(socket.plan)) && |RequestBytes(ask)| + |reply| <= Moves(old(socket.plan))
              ==> open && socket.incoming == old(socket.incoming)[|reply|..]
    {
      hide Steady, Moves, RequestBytes, Decode;
      got := [];
      if !open || !WithinLimit(ask) { return -1, got; }
      ghost var before := socket.incoming;
      var header;
      header, got := Exchange(ask);
      assert reply <= before && |reply| >= HEADER ==> reply[..HEADER] == before[..HEADER];
      assert header.Some? ==> got == before[..HEADER] && got[..HEADER] == got;
      if header.None? || !GoodReply(ask, header.value) {
        open := false;
        return -1, got;
      }
      var m := header.value;
      var ok, moved := socket.Receive(output, 0, m.length);
      got := before[..HEADER + moved];
      assert got[..HEADER] == before[..HEADER];
      if !ok {
        open := false;
        return -1, got;
      }
      assert got[HEADER..] == before[HEADER..][..m.length] == output[..m.length];
      assert socket.incoming == before[HEADER..][m.length..] == before[HEADER + m.length..];
      assert Accept(ask, got) == Some((Signed(m.argument), got[HEADER..]));
      result := Signed(m.argument);
    }

    /** media_open, once the child runs: the child is kept when the opening
        request returns 0, and given up otherwise. */
    method Open(operation: Word) returns (ok: bool)
      modifies this`open, socket
      ensures ok ==> old(open)
      ensures ok <==> open
      ensures ok ==>
        && socket.sent == old(socket.sent) + RequestBytes(Ask(operation, 0, [], 0))
        && |old(socket.incoming)| >= HEADER
        && Accept(Ask(operation, 0, [], 0), old(socket.incoming)[..HEADER]) == Some((0, []))
        && socket.incoming == old(socket.incoming)[HEADER..]
      ensures old(open) && Steady(old(socket.plan)) && 2 * HEADER <= Moves(old(socket.plan))
              && |old(socket.incoming)| >= HEADER
              && Accept(Ask(operation, 0, [], 0), old(socket.incoming)[..HEADER]) == Some((0, []))
              ==> ok
    {
      var ask := Ask(operation, 0, [], 0);
      var nothing := new byte[0];
      ghost var before := socket.incoming;
      ghost var reply := if |before| >= HEADER then before[..HEADER] else [];
      var result, got := Request(ask, nothing, reply);
      if result != 0 { open := false; }
      ok := open;
      if ok {
        assert Accept(ask, got).value.1 == [];
        assert |got| == HEADER;
      }
    }
  }

  // ----- The helper -----

  /** The reply stream of a helper whose transport never fails: each whole, well
      formed request is answered; the first that is not, or that the dispatcher
      refuses, ends the loop, as does a failed opening. */
  function ReplyStream(r: Resource, input: Bytes, envs: seq<Env>): Bytes
    decreases |envs|
  {
    if envs == [] || |input| < HEADER then []
    else
      var m := Decode(input[..HEADER]);
      if m.magic != MAGIC || m.length > LIMIT || |input| < HEADER + m.length then []
      else
        match Answer(r, input[..HEADER + m.length], envs[0])
        case None => []
        case Some(x) =>
          x.1 + if x.0.Unopened? then [] else ReplyStream(x.0, input[HEADER + m.length..], envs[1..])
  }

  /** No whole, well formed request is at the front of the input. */
  predicate NoRequest(input: Bytes) {
    || |input| < HEADER
    || var m := Decode(input[..HEADER]);
       m.magic != MAGIC || m.length > LIMIT || |input| < HEADER + m.length
  }

  /** The helper takes one request off its socket. */
  method TakeRequest(socket: Socket, bytes: array<byte>)
    returns (request: Option<Message>)
    requires bytes.Length == LIMIT
    modifies socket, bytes
    ensures socket.sent == old(socket.sent)
    ensures request.Some? ==>
      && var m := request.value;
      && |old(socket.incoming)| >= HEADER + m.length && m == Decode(old(socket.incoming)[..HEADER])
      && m.magic == MAGIC && m.length <= LIMIT
      && bytes[..m.length] == old(socket.incoming)[HEADER..HEADER + m.length]
      && socket.incoming == old(socket.incoming)[HEADER + m.length..]
    ensures request.Some? && Steady(old(socket.plan)) && |old(socket.incoming)| <= Moves(old(socket.plan)) ==>
      Steady(socket.plan) && Moves(socket.plan) >= Moves(old(socket.plan)) - HEADER - request.value.length
    ensures request.None? && Steady(old(socket.plan)) && |old(socket.incoming)| <= Moves(old(socket.plan)) ==>
      NoRequest(old(socket.incoming))
  {
    ghost var before := socket.incoming;
    var message := new byte[HEADER];
    var ok, moved := socket.Receive(message, 0, HEADER);
    if !ok { return None; }
    assert message[..] == message[0..0 + moved] == before[..HEADER];
    var m := Decode(message[..]);
    if m.magic != MAGIC || m.length > LIMIT { return None; }
    ok, moved := socket.Receive(bytes, 0, m.length);
    if !ok { return None; }
    assert bytes[..m.length] == bytes[0..0 + moved];
    request := Some(m);
  }

  /** The helper writes one reply. */
  method SendReply(socket: Socket, reply: Bytes) returns (ok: bool)
    requires |reply| >= HEADER
    modifies socket
    ensures socket.incoming == old(socket.incoming)
    ensures old(socket.sent) <= socket.sent <= old(socket.sent) + reply
    ensures ok ==> socket.sent == old(socket.sent) + reply
    ensures Steady(old(socket.plan)) && |reply| <= Moves(old(socket.plan)) ==>
      ok && Steady(socket.plan) && Moves(socket.plan) >= Moves(old(socket.plan)) - |reply|
  {
    ghost var sent := socket.sent;
    var response := Store(reply[..HEADER]);
    var bytes := Store(reply[HEADER..]);
    ghost var moved;
    ok, moved := socket.Send(response, 0, HEADER);
    assert response[0..moved] == reply[..moved];
    assert sent + reply[..moved] <= sent + reply;
    if !ok { return; }
    ok, moved := socket.Send(bytes, 0, |reply| - HEADER);
    assert bytes[0..moved] == reply[HEADER..][..moved];
    assert reply[..HEADER] + reply[HEADER..][..moved] == reply[..HEADER + moved];
    assert sent + reply[..HEADER] + reply[HEADER..][..moved] == sent + reply[..HEADER + moved];
    if ok { assert reply[..HEADER + moved] == reply; }
  }

  /** What follows a reply in the stream. */
  function After(r: Resource, input: Bytes, envs: seq<Env>): Bytes {
    if r.Unopened? then [] else ReplyStream(r, input, envs)
  }

  lemma StreamHead(r: Resource, input: Bytes, envs: seq<Env>, m: Message, payload: Bytes)
    requires envs != [] && |input| >= HEADER + m.length && m == Decode(input[..HEADER])
    requires m.magic == MAGIC && m.length <= LIMIT && payload == input[HEADER..HEADER + m.length]
    ensures ReplyStream(r, input, envs)
         == match Dispatch(r, m.operation, m.argument, payload, envs[0])
            case None => []
            case Some(x) =>
              ReplyBytes(m.operation, x.1, x.2) + After(x.0, input[HEADER + m.length..], envs[1..])
  {
    var whole := input[..HEADER + m.length];
    assert whole[HEADER..] == payload && whole[..HEADER] == input[..HEADER];
  }

  lemma Appended(sent: Bytes, reply: Bytes, left: Bytes)
    ensures sent <= sent + (reply + left) && sent + reply <= sent + (reply + left)
    ensures (sent + reply) + left == sent + (reply + left)
  {
    assert sent + reply + left == sent + (reply + left);
  }

  /** A steady transport with enough moves left for what is to come in and go out. */
  predicate Ample(plan: seq<Attempt>, input: Bytes, output: Bytes) {
    Steady(plan) && |input| + |output| <= Moves(plan)
  }

  /** One round of the loop; `more` when the next round follows. */
  method ServeOne(socket: Socket, bytes: array<byte>, resource: Resource, e: Env, ghost envs: seq<Env>)
    returns (after: Resource, more: bool)
    requires bytes.Length == LIMIT && envs != [] && envs[0] == e
    modifies socket, bytes
    ensures old(socket.sent) <= socket.sent
    ensures more ==>
      socket.sent + ReplyStream(after, socket.incoming, envs[1..])
      == old(socket.sent) + ReplyStream(resource, old(socket.incoming), envs)
    ensures !more ==> socket.sent <= old(socket.sent) + ReplyStream(resource, old(socket.incoming), envs)
    ensures Ample(old(socket.plan), old(socket.incoming), ReplyStream(resource, old(socket.incoming), envs)) ==>
      if more
      then Ample(socket.plan, socket.incoming, ReplyStream(after, socket.incoming, envs[1..]))
      else socket.sent == old(socket.sent) + ReplyStream(resource, old(socket.incoming), envs)
  {
    ghost var sent, before := socket.sent, socket.incoming;
    ghost var rest := ReplyStream(resource, before, envs);
    after, more := resource, false;
    var request := TakeRequest(socket, bytes);
    Appended(sent, [], rest);
    if request.None? { return; }
    var m := request.value;
    StreamHead(resource, before, envs, m, bytes[..m.length]);
    var answer := Dispatch(resource, m.operation, m.argument, bytes[..m.length], e);
    if answer.None? { return; }
    after := answer.value.0;
    var reply := ReplyBytes(m.operation, answer.value.1, answer.value.2);
    Appended(sent, reply, After(after, socket.incoming, envs[1..]));
    var ok := SendReply(socket, reply);
    more := ok && !after.Unopened?;
  }

  /** The request loop.  Whatever the transport does, the helper emits a
      beginning of the reply stream, and all of it over a steady transport. */
  method Serve(socket: Socket, envs: seq<Env>) returns (resource: Resource)
    modifies socket
    ensures old(socket.sent) <= socket.sent
    ensures socket.sent <= old(socket.sent) + ReplyStream(Unopened, old(socket.incoming), envs)
    ensures Ample(old(socket.plan), old(socket.incoming), ReplyStream(Unopened, old(socket.incoming), envs))
            ==> socket.sent == old(socket.sent) + ReplyStream(Unopened, old(socket.incoming), envs)
  {
    resource := Unopened;
    ghost var all := socket.sent + ReplyStream(Unopened, socket.incoming, envs);
    ghost var ample := Ample(socket.plan, socket.incoming, ReplyStream(Unopened, socket.incoming, envs));
    var bytes := new byte[LIMIT];
    var turn := 0;
    assert envs[0..] == envs;
    while turn < |envs|
      invariant 0 <= turn <= |envs|
      invariant old(socket.sent) <= socket.sent
      invariant socket.sent + ReplyStream(resource, socket.incoming, envs[turn..]) == all
      invariant ample ==>
        Ample(socket.plan, socket.incoming, ReplyStream(resource, socket.incoming, envs[turn..]))
    {
      var more;
      resource, more := ServeOne(socket, bytes, resource, envs[turn], envs[turn..]);
      if !more { return; }
      assert envs[turn..][1..] == envs[turn + 1..];
      turn := turn + 1;
    }
  }
}
