/** The wire format of the media helper, and moving bytes over its socket. */
module MediaWire {
  import opened ByteStrings

  /** uint32_t */
  type Word = x: int | 0 <= x < 0x1_0000_0000

  /** int32_t */
  type Int32 = x: int | -0x8000_0000 <= x < 0x8000_0000

  const LIMIT: int := 256 * 1024
  const MAGIC: Word := 0x414d4431

  const OPEN_PEER: Word := 1
  const OPEN_CAPTURE: Word := 2
  const OPEN_PLAYBACK: Word := 3
  const CREATE: Word := 4
  const SET: Word := 5
  const OPERATION: Word := 6
  const LOCAL: Word := 7
  const STATE: Word := 8
  const PUSH: Word := 9
  const PULL: Word := 10
  const AUDIO_READ: Word := 11
  const AUDIO_WRITE: Word := 12
  const AUDIO_STATE: Word := 13

  /** Both ends run on one machine; its byte order is taken to be little-endian. */
  function EncodeWord(w: Word): (b: Bytes)
    ensures |b| == 4
  {
    [(w % 256) as byte, (w / 0x100 % 256) as byte, (w / 0x1_0000 % 256) as byte, (w / 0x100_0000) as byte]
  }

  function DecodeWord(b: Bytes): Word
    requires |b| == 4
  {
    b[0] as int + 0x100 * b[1] as int + 0x1_0000 * b[2] as int + 0x100_0000 * b[3] as int
  }

  lemma WordRoundTrip(w: Word)
    ensures DecodeWord(EncodeWord(w)) == w
  {
    assert w / 0x100 / 0x100 == w / 0x1_0000;
    assert w / 0x1_0000 / 0x100 == w / 0x100_0000;
  }

  datatype Message = Message(magic: Word, operation: Word, argument: Word, length: Word)

  const HEADER: int := 16

  function Encode(m: Message): (b: Bytes)
    ensures |b| == HEADER
  {
    EncodeWord(m.magic) + EncodeWord(m.operation) + EncodeWord(m.argument) + EncodeWord(m.length)
  }

  function Decode(b: Bytes): Message
    requires |b| == HEADER
  {
    Message(DecodeWord(b[0..4]), DecodeWord(b[4..8]), DecodeWord(b[8..12]), DecodeWord(b[12..16]))
  }

  lemma MessageRoundTrip(m: Message)
    ensures Decode(Encode(m)) == m
  {
    var b := Encode(m);
    assert b[0..4] == EncodeWord(m.magic) && b[4..8] == EncodeWord(m.operation);
    assert b[8..12] == EncodeWord(m.argument) && b[12..16] == EncodeWord(m.length);
    WordRoundTrip(m.magic);
    WordRoundTrip(m.operation);
    WordRoundTrip(m.argument);
    WordRoundTrip(m.length);
  }

  /** The number whose little-endian bytes these are. */
  function Number(b: Bytes): nat {
    if b == [] then 0 else b[0] as int + 256 * Number(b[1..])
  }

  /** Where a header's words are, lowest byte first. */
  lemma HeaderLayout(m: Message)
    ensures Number(Encode(m)[0..4]) == m.magic && Number(Encode(m)[4..8]) == m.operation
    ensures Number(Encode(m)[8..12]) == m.argument && Number(Encode(m)[12..16]) == m.length
  {
    MessageRoundTrip(m);
    var b := Encode(m);
    WordNumber(b[0..4]);
    WordNumber(b[4..8]);
    WordNumber(b[8..12]);
    WordNumber(b[12..16]);
  }

  lemma WordNumber(b: Bytes)
    requires |b| == 4
    ensures Number(b) == DecodeWord(b)
  {
    assert Number(b[4..]) == 0 && b[3..][1..] == b[4..];
    assert Number(b[3..]) == b[3] as int && b[2..][1..] == b[3..];
    assert Number(b[2..]) == b[2] as int + 256 * Number(b[3..]) && b[1..][1..] == b[2..];
    assert Number(b[1..]) == b[1] as int + 256 * Number(b[2..]);
  }

  lemma BytesRoundTrip(b: Bytes)
    requires |b| == HEADER
    ensures Encode(Decode(b)) == b
  {
    WordBytes(b[0..4]);
    WordBytes(b[4..8]);
    WordBytes(b[8..12]);
    WordBytes(b[12..16]);
    assert b == b[0..4] + b[4..8] + b[8..12] + b[12..16];
  }

  lemma WordBytes(b: Bytes)
    requires |b| == 4
    ensures EncodeWord(DecodeWord(b)) == b
  {
    var w := DecodeWord(b);
    assert w / 0x100 == b[1] as int + 0x100 * b[2] as int + 0x1_0000 * b[3] as int;
    assert w / 0x1_0000 == b[2] as int + 0x100 * b[3] as int;
    assert w / 0x100_0000 == b[3] as int;
  }

  /** (uint32_t)(int32_t) */
  function Unsigned(i: Int32): Word {
    if i < 0 then i + 0x1_0000_0000 else i
  }

  /** (int32_t)(uint32_t) */
  function Signed(w: Word): Int32 {
    if w < 0x8000_0000 then w else w - 0x1_0000_0000
  }

  lemma SignRoundTrip(i: Int32, w: Word)
    ensures Signed(Unsigned(i)) == i && Unsigned(Signed(w)) == w
  {
  }

  // ----- Sockets -----

  /** What the next send or recv does: it is interrupted, it moves up to `limit`
      bytes, or it fails (an error, a timeout, a closed peer). */
  datatype Attempt = Interrupted | Moved(limit: nat) | Failed

  function Moves(plan: seq<Attempt>): nat {
    if plan == [] then 0 else (if plan[0].Moved? then 1 else 0) + Moves(plan[1..])
  }

  /** A transport on which no call fails and every call that is not interrupted
      moves something. */
  predicate Steady(plan: seq<Attempt>) {
    plan == [] || ((plan[0].Interrupted? || (plan[0].Moved? && plan[0].limit > 0)) && Steady(plan[1..]))
  }

  function Min(a: nat, b: nat): nat {
    if a < b then a else b
  }

  /** One end of the socket pair.  `incoming` is what the other end will have
      delivered; the plan is the environment's. */
  class Socket {
    var sent: Bytes
    var incoming: Bytes
    var plan: seq<Attempt>

    constructor (incoming: Bytes, plan: seq<Attempt>)
      ensures this.sent == [] && this.incoming == incoming && this.plan == plan
    {
      this.sent, this.incoming, this.plan := [], incoming, plan;
    }

    /** One send. */
    method SendSome(buffer: array<byte>, p: nat, rest: nat) returns (outcome: Attempt)
      requires 0 < rest && p + rest <= buffer.Length
      modifies this
      ensures outcome.Moved? ==> 0 < outcome.limit <= rest
      ensures sent == old(sent) + buffer[p..p + if outcome.Moved? then outcome.limit else 0]
      ensures incoming == old(incoming)
      ensures outcome.Failed? || |plan| < |old(plan)|
      ensures Steady(old(plan)) && Moves(old(plan)) > 0 ==>
        !outcome.Failed? && Steady(plan) && Moves(plan) >= Moves(old(plan)) - if outcome.Moved? then 1 else 0
    {
      outcome := Failed;
      assert buffer[p..p] == [];
      if plan != [] {
        outcome := plan[0];
        plan := plan[1..];
        if outcome.Moved? {
          var n := Min(outcome.limit, rest);
          outcome := if n == 0 then Failed else Moved(n);
          sent := sent + buffer[p..p + n];
        }
      }
    }

    /** One recv: fills buffer from p on. */
    method ReceiveSome(buffer: array<byte>, p: nat, rest: nat) returns (outcome: Attempt)
      requires 0 < rest && p + rest <= buffer.Length
      modifies this, buffer
      ensures outcome.Moved? ==> 0 < outcome.limit <= rest && outcome.limit <= |old(incoming)|
      ensures var n := if outcome.Moved? then outcome.limit else 0;
              && incoming == old(incoming)[n..]
              && buffer[..] == Overlaid(old(buffer[..]), p, old(incoming)[..n])
      ensures sent == old(sent)
      ensures outcome.Failed? || |plan| < |old(plan)|
      ensures Steady(old(plan)) && Moves(old(plan)) > 0 && old(incoming) != [] ==>
        !outcome.Failed? && Steady(plan) && Moves(plan) >= Moves(old(plan)) - if outcome.Moved? then 1 else 0
    {
      outcome := Failed;
      if plan != [] {
        outcome := plan[0];
        plan := plan[1..];
        if outcome.Moved? {
          var n := Min(Min(outcome.limit, rest), |incoming|);
          outcome := if n == 0 then Failed else Moved(n);
          forall k | 0 <= k < n { buffer[p + k] := incoming[k]; }
          incoming := incoming[n..];
        }
      }
    }

    /** media_transfer, sending: all of buffer[from..from+length], or a beginning of it. */
    method Send(buffer: array<byte>, from: nat, length: nat)
      returns (ok: bool, ghost moved: nat)
      requires from + length <= buffer.Length
      modifies this
      ensures moved <= length && (ok <==> moved == length)
      ensures sent == old(sent) + buffer[from..from + moved] && incoming == old(incoming)
      ensures Steady(old(plan)) && length <= Moves(old(plan)) ==>
        ok && Steady(plan) && Moves(plan) >= Moves(old(plan)) - length
    {
      var p: nat, rest: nat := from, length;
      while rest > 0
        invariant p + rest == from + length && from <= p
        invariant sent == old(sent) + buffer[from..p] && incoming == old(incoming)
        invariant Steady(old(plan)) && length <= Moves(old(plan)) ==>
          Steady(plan) && Moves(plan) >= Moves(old(plan)) - (p - from)
        decreases |plan|
      {
        var outcome := SendSome(buffer, p, rest);
        if outcome.Failed? { return false, p - from; }
        var n := if outcome.Moved? then outcome.limit else 0;
        assert buffer[from..p + n] == buffer[from..p] + buffer[p..p + n];
        p, rest := p + n, rest - n;
      }
      return true, length;
    }

    /** media_transfer, receiving: fills buffer[from..from+length], or a beginning of it. */
    method Receive(buffer: array<byte>, from: nat, length: nat)
      returns (ok: bool, ghost moved: nat)
      requires from + length <= buffer.Length
      modifies this, buffer
      ensures moved <= length && (ok <==> moved == length)
      ensures moved <= |old(incoming)| && sent == old(sent) && incoming == old(incoming)[moved..]
      ensures buffer[..] == Overlaid(old(buffer[..]), from, old(incoming)[..moved])
      ensures Steady(old(plan)) && length <= Moves(old(plan)) && length <= |old(incoming)| ==>
        ok && Steady(plan) && Moves(plan) >= Moves(old(plan)) - length
    {
      hide Steady, Moves, Overlaid;
      var p: nat, rest: nat := from, length;
      ghost var source, before := incoming, buffer[..];
      OverlaidNothing(before, from);
      while rest > 0
        invariant p + rest == from + length && from <= p && p - from <= |source|
        invariant sent == old(sent) && incoming == source[p - from..]
        invariant buffer[..] == Overlaid(before, from, source[..p - from])
        invariant Steady(old(plan)) && length <= Moves(old(plan)) && length <= |source| ==>
          Steady(plan) && Moves(plan) >= Moves(old(plan)) - (p - from)
        decreases |plan|
      {
        var outcome := ReceiveSome(buffer, p, rest);
        var n := if outcome.Moved? then outcome.limit else 0;
        OverlaidFurther(before, from, source, p - from, n);
        if outcome.Failed? { return false, p - from; }
        p, rest := p + n, rest - n;
      }
      return true, length;
    }
  }

  /** The buffer with `bytes` in place from a position on. */
  function Overlaid(buffer: Bytes, from: nat, bytes: Bytes): (r: Bytes)
    requires from + |bytes| <= |buffer|
    ensures |r| == |buffer|
  {
    buffer[..from] + bytes + buffer[from + |bytes|..]
  }

  lemma OverlaidNothing(buffer: Bytes, from: nat)
    requires from <= |buffer|
    ensures Overlaid(buffer, from, []) == buffer
  {
  }

  lemma OverlaidFurther(buffer: Bytes, from: nat, source: Bytes, done: nat, n: nat)
    requires from + done + n <= |buffer| && done + n <= |source|
    ensures var now := Overlaid(buffer, from, source[..done]);
            Overlaid(now, from + done, source[done..][..n]) == Overlaid(buffer, from, source[..done + n])
    ensures source[done..][n..] == source[done + n..]
  {
    var now := Overlaid(buffer, from, source[..done]);
    assert now[..from + done] == buffer[..from] + source[..done];
    assert source[..done] + source[done..][..n] == source[..done + n];
    assert now[from + done + n..] == buffer[from + done + n..];
    assert buffer[..from] + source[..done] + source[done..][..n] == buffer[..from] + source[..done + n];
  }
}
