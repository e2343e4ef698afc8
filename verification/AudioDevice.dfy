/** The audio endpoint of the media library: a bounded queue that a capture
    thread fills and a reader drains, with a failure latch.

    Only the queue sections run under the mutex; the latch is atomic on its own,
    so a reader's check of the latch and its pop are separate steps. */
module AudioDevice {
  import opened ByteStrings
  import opened Wrappers

  const MAX_BYTES: int := 24000
  const MAX_BUFFERS: int := 100

  /** captured_bytes is unsigned in the library; here it may go negative, and is
      proved not to. */
  datatype Audio = Audio(capture: bool, captured: seq<Bytes>, capturedBytes: int, failed: bool, played: seq<Bytes>)

  function Opened(capture: bool): Audio {
    Audio(capture, [], 0, false, [])
  }

  predicate Acceptable(a: Audio, buffer: Bytes) {
    && buffer != [] && |buffer| % 2 == 0 && |buffer| <= MAX_BYTES
    && a.capturedBytes + |buffer| <= MAX_BYTES && |a.captured| < MAX_BUFFERS
  }

  /** capture_sample: what does not fit fails the device for good. */
  function Captured(a: Audio, buffer: Bytes): Audio {
    if Acceptable(a, buffer)
    then a.(captured := a.captured + [buffer], capturedBytes := a.capturedBytes + |buffer|)
    else a.(failed := true)
  }

  /** agent_audio_state: any error on the bus latches. */
  function Polled(a: Audio, busError: bool): Audio {
    a.(failed := a.failed || busError)
  }

  function PolledResult(a: Audio): int {
    if a.failed then -1 else 1
  }

  function Popped(a: Audio): Audio {
    if a.captured == [] then a
    else a.(captured := a.captured[1..], capturedBytes := a.capturedBytes - |a.captured[0]|)
  }

  function Head(a: Audio): Option<Bytes> {
    if a.captured == [] then None else Some(a.captured[0])
  }

  /** What the reader does with the buffer it popped. */
  function Delivered(buffer: Option<Bytes>, capacity: nat, extracts: bool): (int, Bytes) {
    match buffer
    case None => (0, [])
    case Some(b) => if |b| <= capacity && extracts then (|b|, b) else (-1, [])
  }

  class AgentAudio {
    const capture: bool
    var captured: seq<Bytes>
    var capturedBytes: int
    var failed: bool
    var played: seq<Bytes>

    ghost function Model(): Audio
      reads this
    {
      Audio(capture, captured, capturedBytes, failed, played)
    }

    constructor (capture: bool)
      ensures this.capture == capture && Model() == Opened(capture)
    {
      this.capture := capture;
      captured, capturedBytes, failed, played := [], 0, false, [];
    }

    method CaptureSample(buffer: Bytes) returns (flowOk: bool)
      modifies this
      ensures Model() == Captured(old(Model()), buffer) && flowOk == !failed
    {
      var size := |buffer|;
      if size == 0 || size % 2 != 0 || size > MAX_BYTES || capturedBytes + size > MAX_BYTES
         || |captured| >= MAX_BUFFERS {
        failed := true;
      } else {
        captured := captured + [buffer];
        capturedBytes := capturedBytes + size;
      }
      flowOk := !failed;
    }

    method State(busMessages: seq<bool>) returns (result: int)
      modifies this`failed
      ensures Model() == Polled(old(Model()), true in busMessages) && result == PolledResult(Model())
    {
      for i := 0 to |busMessages|
        invariant Model() == Polled(old(Model()), true in busMessages[..i])
      {
        if busMessages[i] { failed := true; }
        assert busMessages[..i + 1] == busMessages[..i] + [busMessages[i]];
      }
      assert busMessages[..|busMessages|] == busMessages;
      result := if failed then -1 else 1;
    }

    method PopHead() returns (buffer: Option<Bytes>)
      modifies this
      ensures Model() == Popped(old(Model())) && buffer == Head(old(Model()))
    {
      if captured == [] { return None; }
      buffer := Some(captured[0]);
      capturedBytes := capturedBytes - |captured[0]|;
      captured := captured[1..];
    }

    /** agent_audio_read without interference. */
    method Read(capacity: nat, busMessages: seq<bool>, extracts: bool) returns (result: int, output: Bytes)
      modifies this
      ensures (Model(), result, output) == ReadAlone(old(Model()), capacity, true in busMessages, extracts)
    {
      if !capture { return -1, []; }
      var state := State(busMessages);
      if state < 0 { return -1, []; }
      var buffer := PopHead();
      var delivered := Delivered(buffer, capacity, extracts);
      result, output := delivered.0, delivered.1;
    }

    /** agent_audio_write: the device may still refuse the buffer. */
    method Write(pcm: Bytes, busMessages: seq<bool>, level: nat, allocates: bool, flows: bool) returns (result: int)
      modifies this
      ensures (Model(), result) == WriteAlone(old(Model()), pcm, true in busMessages, level, allocates, flows)
    {
      var count := |pcm|;
      if capture || count == 0 || count % 2 != 0 || count > MAX_BYTES { return -1; }
      var state := State(busMessages);
      if state < 0 || level + count > MAX_BYTES || !allocates { return -1; }
      played := played + [pcm];
      result := if flows then 1 else -1;
    }
  }

  function ReadAlone(a: Audio, capacity: nat, busError: bool, extracts: bool): (Audio, int, Bytes) {
    if !a.capture then (a, -1, [])
    else
      var polled := Polled(a, busError);
      if polled.failed then (polled, -1, [])
      else
        var delivered := Delivered(Head(polled), capacity, extracts);
        (Popped(polled), delivered.0, delivered.1)
  }

  function WriteAlone(a: Audio, pcm: Bytes, busError: bool, level: nat, allocates: bool, flows: bool): (Audio, int) {
    if a.capture || |pcm| == 0 || |pcm| % 2 != 0 || |pcm| > MAX_BYTES then (a, -1)
    else
      var polled := Polled(a, busError);
      if polled.failed || level + |pcm| > MAX_BYTES || !allocates then (polled, -1)
      else (polled.(played := polled.played + [pcm]), if flows then 1 else -1)
  }

  // ----- The capture thread and the reader interleaved -----

  datatype Reader =
    | Resting
    | Passed(capacity: nat)                       // saw no failure
    | Holding(capacity: nat, buffer: Option<Bytes>)

  /** A finished read: whether the latch refused it, what it popped, whether the
      buffer's bytes could be extracted, and what it returned. */
  datatype Outcome =
    Outcome(refused: bool, buffer: Option<Bytes>, capacity: nat, extracts: bool, result: int, output: Bytes)

  datatype World = World(audio: Audio, reader: Reader, accepted: seq<Bytes>, outcomes: seq<Outcome>)

  datatype Step =
    | Capture(buffer: Bytes)
    | BusError
    | BeginRead(capacity: nat)
    | Pop
    | FinishRead(extracts: bool)

  ghost predicate Enabled(w: World, step: Step) {
    match step
    case Capture(_) => true
    // The bus is polled by public operations, which the caller serializes.
    case BusError => w.reader.Resting?
    case BeginRead(_) => w.reader.Resting?
    case Pop => w.reader.Passed?
    case FinishRead(_) => w.reader.Holding?
  }

  function Apply(w: World, step: Step): World {
    match step
    case Capture(b) =>
      w.(audio := Captured(w.audio, b),
         accepted := if Acceptable(w.audio, b) then w.accepted + [b] else w.accepted)
    case BusError => w.(audio := Polled(w.audio, true))
    case BeginRead(c) =>
      if w.audio.failed then w.(outcomes := w.outcomes + [Outcome(true, None, c, false, -1, [])])
      else w.(reader := Passed(c))
    case Pop =>
      if !w.reader.Passed? then w
      else w.(audio := Popped(w.audio), reader := Holding(w.reader.capacity, Head(w.audio)))
    case FinishRead(e) =>
      if !w.reader.Holding? then w
      else
        var d := Delivered(w.reader.buffer, w.reader.capacity, e);
        w.(reader := Resting,
           outcomes := w.outcomes + [Outcome(false, w.reader.buffer, w.reader.capacity, e, d.0, d.1)])
  }

  ghost predicate IsRun(w: World, steps: seq<Step>)
    decreases |steps|
  {
    steps == [] || (Enabled(w, steps[0]) && IsRun(Apply(w, steps[0]), steps[1..]))
  }

  function Final(w: World, steps: seq<Step>): World
    decreases |steps|
  {
    if steps == [] then w else Final(Apply(w, steps[0]), steps[1..])
  }

  const Beginning: World := World(Opened(true), Resting, [], [])

  function Total(buffers: seq<Bytes>): nat {
    if buffers == [] then 0 else |buffers[0]| + Total(buffers[1..])
  }

  function AsSeq(b: Option<Bytes>): seq<Bytes> {
    if b.Some? then [b.value] else []
  }

  /** The buffers that reads took off the queue, in order. */
  function Taken(outcomes: seq<Outcome>): seq<Bytes> {
    if outcomes == [] then []
    else Taken(outcomes[..|outcomes| - 1]) + AsSeq(outcomes[|outcomes| - 1].buffer)
  }

  function InHand(r: Reader): seq<Bytes> {
    if r.Holding? then AsSeq(r.buffer) else []
  }

  /** A refused read took nothing and returned -1; one that found nothing returned
      0; one that took a buffer returned all of it when it fit and could be
      extracted, and -1 and nothing otherwise. */
  ghost predicate Honest(o: Outcome) {
    if o.refused then o.buffer.None? && o.result == -1 && o.output == []
    else if o.buffer.None? then o.result == 0 && o.output == []
    else if |o.buffer.value| <= o.capacity && o.extracts then o.result == |o.output| && Some(o.output) == o.buffer
    else o.result == -1 && o.output == []
  }

  ghost predicate Conserved(accepted: seq<Bytes>, taken: seq<Bytes>, hand: seq<Bytes>, captured: seq<Bytes>) {
    accepted == taken + hand + captured
  }

  ghost predicate Bounded(a: Audio) {
    && a.capturedBytes == Total(a.captured) <= MAX_BYTES
    && |a.captured| <= MAX_BUFFERS
  }

  ghost predicate Inv(w: World) {
    && Conserved(w.accepted, Taken(w.outcomes), InHand(w.reader), w.audio.captured)
    && Bounded(w.audio)
    && (forall o | o in w.outcomes :: Honest(o) && (o.refused ==> w.audio.failed))
  }

  lemma {:induction false} TotalConcat(a: seq<Bytes>, b: seq<Bytes>)
    ensures Total(a + b) == Total(a) + Total(b)
  {
    if a == [] {
      assert a + b == b;
    } else {
      TotalConcat(a[1..], b);
      assert (a + b)[1..] == a[1..] + b;
    }
  }

  lemma CaptureKeepsBounded(a: Audio, b: Bytes)
    requires Bounded(a)
    ensures Bounded(Captured(a, b))
  {
    TotalConcat(a.captured, [b]);
    assert Total([b]) == |b| + Total([]);
  }

  lemma PopKeepsBounded(a: Audio)
    requires Bounded(a)
    ensures Bounded(Popped(a))
  {
  }

  lemma QueueKeepsConserved(accepted: seq<Bytes>, taken: seq<Bytes>, hand: seq<Bytes>, captured: seq<Bytes>, b: Bytes)
    requires Conserved(accepted, taken, hand, captured)
    ensures Conserved(accepted + [b], taken, hand, captured + [b])
    ensures captured != [] && hand == [] ==> Conserved(accepted, taken, [captured[0]], captured[1..])
  {
    if captured != [] && hand == [] { assert captured == [captured[0]] + captured[1..]; }
  }

  lemma QueueStepKeepsInv(w: World, step: Step)
    requires Inv(w) && Enabled(w, step) && (step.Capture? || step.Pop?)
    ensures Inv(Apply(w, step))
  {
    var b := if step.Capture? then step.buffer else [];
    CaptureKeepsBounded(w.audio, b);
    PopKeepsBounded(w.audio);
    QueueKeepsConserved(w.accepted, Taken(w.outcomes), InHand(w.reader), w.audio.captured, b);
  }

  lemma OutcomeKeepsInv(w: World, step: Step)
    requires Inv(w) && Enabled(w, step) && (step.BeginRead? || step.FinishRead?)
    ensures Inv(Apply(w, step))
  {
    hide Bounded, Taken, Honest;
    var t := Apply(w, step);
    if t.outcomes != w.outcomes {
      var last := t.outcomes[|w.outcomes|];
      assert t.outcomes == w.outcomes + [last];
      OneMoreTaken(w.outcomes, last);
      assert Honest(last) by { LastIsHonest(w, step); }
    }
  }

  lemma OneMoreTaken(outcomes: seq<Outcome>, last: Outcome)
    ensures Taken(outcomes + [last]) == Taken(outcomes) + AsSeq(last.buffer)
  {
    assert (outcomes + [last])[..|outcomes|] == outcomes;
  }

  lemma LastIsHonest(w: World, step: Step)
    requires Enabled(w, step) && (step.BeginRead? || step.FinishRead?) && Apply(w, step).outcomes != w.outcomes
    ensures Honest(Apply(w, step).outcomes[|w.outcomes|])
  {
    hide Taken, Captured, Popped;
  }

  lemma StepKeepsInv(w: World, step: Step)
    requires Inv(w) && Enabled(w, step)
    ensures Inv(Apply(w, step))
  {
    match step
    case Capture(_) => QueueStepKeepsInv(w, step);
    case Pop => QueueStepKeepsInv(w, step);
    case BeginRead(_) => OutcomeKeepsInv(w, step);
    case FinishRead(_) => OutcomeKeepsInv(w, step);
    case BusError =>
  }

  lemma {:induction false} RunKeepsInv(w: World, steps: seq<Step>)
    requires Inv(w) && IsRun(w, steps)
    ensures Inv(Final(w, steps))
    decreases |steps|
  {
    if steps != [] {
      StepKeepsInv(w, steps[0]);
      RunKeepsInv(Apply(w, steps[0]), steps[1..]);
    }
  }

  /** Under any interleaving, accepted buffers are, in order, those that reads
      took (each delivered whole or dropped), the one in a reader's hand, and
      those queued; the byte count is their exact total and never underflows. */
  lemma CaptureQueueConserves(steps: seq<Step>)
    requires IsRun(Beginning, steps)
    ensures var w := Final(Beginning, steps);
            && w.accepted == Taken(w.outcomes) + InHand(w.reader) + w.audio.captured
            && 0 <= w.audio.capturedBytes == Total(w.audio.captured) <= MAX_BYTES
            && |w.audio.captured| <= MAX_BUFFERS
            && (forall o | o in w.outcomes :: Honest(o) && (o.refused ==> w.audio.failed))
  {
    RunKeepsInv(Beginning, steps);
  }

  /** A buffer of whole samples, and a queue with 24000 bytes and 100 buffers at
      most once it is in. */
  predicate Room(queue: seq<Bytes>, b: Bytes) {
    b != [] && |b| % 2 == 0 && Total(queue + [b]) <= 24000 && |queue + [b]| <= 100
  }

  /** Somewhere in the run a bus error was found, or a buffer had no room. */
  ghost predicate SomeTrouble(w: World, steps: seq<Step>)
    decreases |steps|
  {
    steps != [] && (Troubles(w, steps[0]) || SomeTrouble(Apply(w, steps[0]), steps[1..]))
  }

  predicate Troubles(w: World, step: Step) {
    step.BusError? || (step.Capture? && !Room(w.audio.captured, step.buffer))
  }

  function Gains(w: World, step: Step): seq<Bytes> {
    if step.Capture? && Room(w.audio.captured, step.buffer) then [step.buffer] else []
  }

  /** The captured buffers that had room, in order. */
  function Roomy(w: World, steps: seq<Step>): seq<Bytes>
    decreases |steps|
  {
    if steps == [] then [] else Gains(w, steps[0]) + Roomy(Apply(w, steps[0]), steps[1..])
  }

  lemma AcceptableIsRoom(a: Audio, b: Bytes)
    requires Bounded(a)
    ensures Acceptable(a, b) <==> Room(a.captured, b)
  {
    TotalConcat(a.captured, [b]);
    assert Total([b]) == |b| + Total([]);
  }

  lemma StepTroubles(w: World, step: Step)
    requires Bounded(w.audio)
    ensures Apply(w, step).audio.failed <==> w.audio.failed || Troubles(w, step)
    ensures Apply(w, step).accepted == w.accepted + Gains(w, step)
  {
    if step.Capture? { AcceptableIsRoom(w.audio, step.buffer); }
  }

  lemma {:induction false} TroubleFrom(w: World, steps: seq<Step>)
    requires Inv(w) && IsRun(w, steps)
    ensures Final(w, steps).audio.failed <==> w.audio.failed || SomeTrouble(w, steps)
    decreases |steps|
  {
    hide Inv, Apply, Troubles, Enabled;
    if steps != [] {
      InvIsBounded(w);
      StepTroubles(w, steps[0]);
      StepKeepsInv(w, steps[0]);
      TroubleFrom(Apply(w, steps[0]), steps[1..]);
    }
  }

  lemma {:induction false} AcceptedFrom(w: World, steps: seq<Step>)
    requires Inv(w) && IsRun(w, steps)
    ensures Final(w, steps).accepted == w.accepted + Roomy(w, steps)
    decreases |steps|
  {
    hide Inv, Apply, Gains, Enabled;
    if steps != [] {
      InvIsBounded(w);
      StepTroubles(w, steps[0]);
      StepKeepsInv(w, steps[0]);
      AcceptedFrom(Apply(w, steps[0]), steps[1..]);
    }
  }

  lemma InvIsBounded(w: World)
    requires Inv(w)
    ensures Bounded(w.audio)
  {
  }

  /** The queue takes exactly the buffers there is room for, and the device fails
      exactly by a bus error or by a buffer there is no room for. */
  lemma FailsIffTrouble(steps: seq<Step>)
    requires IsRun(Beginning, steps)
    ensures Final(Beginning, steps).audio.failed <==> SomeTrouble(Beginning, steps)
    ensures Final(Beginning, steps).accepted == Roomy(Beginning, steps)
  {
    TroubleFrom(Beginning, steps);
    AcceptedFrom(Beginning, steps);
  }

  /** Once the device failed, the failure stays, and every read but one that is
      already under way returns -1 and takes nothing. */
  lemma {:induction false} FailureIsFinal(w: World, steps: seq<Step>)
    requires w.audio.failed && IsRun(w, steps)
    ensures var t := Final(w, steps);
            && t.audio.failed && (w.reader.Resting? ==> t.reader.Resting?)
            && w.outcomes <= t.outcomes
            && forall i | |w.outcomes| + (if w.reader.Resting? then 0 else 1) <= i < |t.outcomes| ::
                 t.outcomes[i].refused && t.outcomes[i].result == -1 && t.outcomes[i].buffer == None
    decreases |steps|
  {
    if steps != [] { FailureIsFinal(Apply(w, steps[0]), steps[1..]); }
  }

  /** The steps of a read that nothing interrupts, its bus poll included. */
  function ReadSteps(failed: bool, capacity: nat, busError: bool, extracts: bool): seq<Step> {
    (if busError then [BusError] else [])
    + [BeginRead(capacity)] + if failed || busError then [] else [Pop, FinishRead(extracts)]
  }

  /** An undisturbed read is those steps with nothing in between. */
  lemma ReadAloneIsARun(w: World, capacity: nat, busError: bool, extracts: bool)
    requires w.audio.capture && w.reader.Resting?
    ensures var steps := ReadSteps(w.audio.failed, capacity, busError, extracts);
            var x := ReadAlone(w.audio, capacity, busError, extracts);
            && IsRun(w, steps)
            && var t := Final(w, steps);
            && t.audio == x.0 && t.reader.Resting? && t.accepted == w.accepted
            && |t.outcomes| == |w.outcomes| + 1 && w.outcomes <= t.outcomes
            && t.outcomes[|w.outcomes|].result == x.1 && t.outcomes[|w.outcomes|].output == x.2
  {
    var polled := if busError then Apply(w, BusError) else w;
    var rest := [BeginRead(capacity)] + if polled.audio.failed then [] else [Pop, FinishRead(extracts)];
    ReadAfterPoll(polled, capacity, extracts);
    var steps := ReadSteps(w.audio.failed, capacity, busError, extracts);
    if busError {
      assert steps == [BusError] + rest && steps[1..] == rest;
    } else {
      assert steps == rest && polled.audio == Polled(w.audio, false);
    }
  }

  lemma ReadAfterPoll(w: World, capacity: nat, extracts: bool)
    requires w.audio.capture && w.reader.Resting?
    ensures var steps := [BeginRead(capacity)] + if w.audio.failed then [] else [Pop, FinishRead(extracts)];
            var x := ReadAlone(w.audio, capacity, false, extracts);
            && IsRun(w, steps)
            && var t := Final(w, steps);
            && t.audio == x.0 && t.reader.Resting? && t.accepted == w.accepted
            && |t.outcomes| == |w.outcomes| + 1 && w.outcomes <= t.outcomes
            && t.outcomes[|w.outcomes|].result == x.1 && t.outcomes[|w.outcomes|].output == x.2
  {
    var begun := Apply(w, BeginRead(capacity));
    if w.audio.failed {
      assert ([BeginRead(capacity)] + [])[1..] == [];
    } else {
      var popped := Apply(begun, Pop);
      var steps := [BeginRead(capacity)] + [Pop, FinishRead(extracts)];
      assert steps[1..] == [Pop, FinishRead(extracts)] && steps[1..][1..] == [FinishRead(extracts)];
      assert steps[1..][1..][1..] == [];
      assert Final(popped, steps[1..][1..]) == Apply(popped, FinishRead(extracts));
      assert IsRun(popped, steps[1..][1..]);
      assert Final(begun, steps[1..]) == Final(popped, steps[1..][1..]);
    }
  }

  // ----- What a failed device can still deliver -----

  /** Some read finished during the steps with a positive result. */
  ghost predicate Delivers(w: World, steps: seq<Step>) {
    exists i :: |w.outcomes| <= i < |Final(w, steps).outcomes| && Final(w, steps).outcomes[i].result > 0
  }

  /** The read under way holds a buffer it can return, or is about to take one,
      or is about to find an empty queue that a captured buffer may still reach. */
  predicate CanDeliver(w: World) {
    match w.reader
    case Resting => false
    case Holding(c, buffer) => buffer.Some? && 0 < |buffer.value| <= c
    case Passed(c) => if w.audio.captured == [] then c >= 2 else 0 < |w.audio.captured[0]| <= c
  }

  lemma StepCannotDeliver(w: World, step: Step)
    requires w.audio.failed && !CanDeliver(w) && Enabled(w, step)
    ensures var t := Apply(w, step);
            && t.audio.failed && !CanDeliver(t) && w.outcomes <= t.outcomes
            && forall i | |w.outcomes| <= i < |t.outcomes| :: t.outcomes[i].result <= 0
  {
  }

  lemma {:induction false} NothingMoreIsDelivered(w: World, steps: seq<Step>)
    requires w.audio.failed && !CanDeliver(w) && IsRun(w, steps)
    ensures w.outcomes <= Final(w, steps).outcomes && !Delivers(w, steps)
    decreases |steps|
  {
    if steps != [] {
      StepCannotDeliver(w, steps[0]);
      NothingMoreIsDelivered(Apply(w, steps[0]), steps[1..]);
    }
  }

  lemma FinishDelivers(w: World) returns (steps: seq<Step>)
    requires w.reader.Holding? && CanDeliver(w)
    ensures IsRun(w, steps) && Delivers(w, steps)
  {
    steps := [FinishRead(true)];
    var t := Apply(w, FinishRead(true));
    assert steps[1..] == [] && Final(w, steps) == t && IsRun(t, steps[1..]);
    assert t.outcomes[|w.outcomes|].result > 0;
  }

  lemma OneStepEarlier(w: World, step: Step, later: seq<Step>) returns (steps: seq<Step>)
    requires Enabled(w, step) && IsRun(Apply(w, step), later) && Delivers(Apply(w, step), later)
    requires Apply(w, step).outcomes == w.outcomes
    ensures IsRun(w, steps) && Delivers(w, steps)
  {
    steps := [step] + later;
    assert steps[1..] == later && steps[0] == step;
    var t := Final(Apply(w, step), later);
    assert Final(w, steps) == t;
    var i :| |w.outcomes| <= i < |t.outcomes| && t.outcomes[i].result > 0;
    assert Final(w, steps).outcomes[i].result > 0;
  }

  lemma PopDelivers(w: World) returns (steps: seq<Step>)
    requires w.reader.Passed? && w.audio.captured != [] && CanDeliver(w)
    ensures IsRun(w, steps) && Delivers(w, steps)
  {
    var later := FinishDelivers(Apply(w, Pop));
    steps := OneStepEarlier(w, Pop, later);
  }

  lemma CaptureDelivers(w: World) returns (steps: seq<Step>)
    requires Bounded(w.audio) && w.reader.Passed? && w.audio.captured == [] && CanDeliver(w)
    ensures IsRun(w, steps) && Delivers(w, steps)
  {
    var later := PopDelivers(Apply(w, Capture([0, 0])));
    steps := OneStepEarlier(w, Capture([0, 0]), later);
  }

  /** The exact condition: a failed device can still deliver exactly through a
      read under way that passed its check, and only if that read holds, or can
      still take, a buffer that fits. */
  lemma FailedDeviceDeliversIff(w: World)
    requires w.audio.failed && Bounded(w.audio)
    ensures (exists steps :: IsRun(w, steps) && Delivers(w, steps)) <==> CanDeliver(w)
  {
    if CanDeliver(w) {
      var steps: seq<Step>;
      if w.reader.Holding? {
        steps := FinishDelivers(w);
      } else if w.audio.captured != [] {
        steps := PopDelivers(w);
      } else {
        steps := CaptureDelivers(w);
      }
    } else {
      forall steps | IsRun(w, steps) ensures !Delivers(w, steps) { NothingMoreIsDelivered(w, steps); }
    }
  }

  /** It happens: the capture thread fails the device behind a read's check. */
  lemma ReadUnderwayMayStillDeliver() returns (steps: seq<Step>)
    ensures IsRun(Beginning, steps)
    ensures var w := Final(Beginning, steps); w.audio.failed && |w.outcomes| == 1 && w.outcomes[0].result == 2
  {
    var b: Bytes := [0, 0];
    steps := [Capture(b), BeginRead(2), Capture([]), Pop, FinishRead(true)];
    var w1 := Apply(Beginning, steps[0]);
    var w2 := Apply(w1, steps[1]);
    var w3 := Apply(w2, steps[2]);
    var w4 := Apply(w3, steps[3]);
    var w5 := Apply(w4, steps[4]);
    assert steps[1..][1..][1..][1..][1..] == [];
    assert steps[1..][0] == BeginRead(2) && steps[1..][1..][0] == Capture([]);
    assert steps[1..][1..][1..][0] == Pop && steps[1..][1..][1..][1..][0] == FinishRead(true);
    assert Final(w4, steps[1..][1..][1..][1..]) == w5 && IsRun(w4, steps[1..][1..][1..][1..]);
    assert Final(w3, steps[1..][1..][1..]) == w5 && IsRun(w3, steps[1..][1..][1..]);
    assert Final(w2, steps[1..][1..]) == w5 && IsRun(w2, steps[1..][1..]);
    assert Final(w1, steps[1..]) == w5 && IsRun(w1, steps[1..]);
  }

  // ----- Playback -----

  datatype WriteCall = WriteCall(pcm: Bytes, busError: bool, level: nat, allocates: bool, flows: bool)

  /** A playback device after some writes, and what they returned. */
  function WriteAll(calls: seq<WriteCall>): (r: (Audio, seq<int>))
    ensures |r.1| == |calls|
  {
    if calls == [] then (Opened(false), [])
    else
      var before, c := WriteAll(calls[..|calls| - 1]), calls[|calls| - 1];
      var x := WriteAlone(before.0, c.pcm, c.busError, c.level, c.allocates, c.flows);
      (x.0, before.1 + [x.1])
  }

  /** The buffers of the writes that returned 1, in order. */
  function Confirmed(calls: seq<WriteCall>, results: seq<int>): seq<Bytes>
    requires |calls| == |results|
  {
    if calls == [] then []
    else
      var n := |calls| - 1;
      Confirmed(calls[..n], results[..n]) + if results[n] == 1 then [calls[n].pcm] else []
  }

  function Buffers(calls: seq<WriteCall>): seq<Bytes> {
    if calls == [] then [] else Buffers(calls[..|calls| - 1]) + [calls[|calls| - 1].pcm]
  }

  /** a is b with some elements left out. */
  predicate IsSubsequence(a: seq<Bytes>, b: seq<Bytes>)
    decreases |b|
  {
    if a == [] then true
    else if b == [] then false
    else
      var f := b[..|b| - 1];
      (a[|a| - 1] == b[|b| - 1] && IsSubsequence(a[..|a| - 1], f)) || IsSubsequence(a, f)
  }

  predicate Playable(b: Bytes) {
    0 < |b| <= MAX_BYTES && |b| % 2 == 0
  }

  /** Confirmed buffers are played, played buffers were written, both in order. */
  predicate InOrder(confirmed: seq<Bytes>, played: seq<Bytes>, written: seq<Bytes>) {
    IsSubsequence(confirmed, played) && IsSubsequence(played, written) && forall b :: b in played ==> Playable(b)
  }

  lemma SubsequenceGrows(a: seq<Bytes>, b: seq<Bytes>, x: Bytes)
    requires IsSubsequence(a, b)
    ensures IsSubsequence(a, b + [x]) && IsSubsequence(a + [x], b + [x])
  {
    assert (b + [x])[..|b|] == b && (a + [x])[..|a|] == a;
  }

  lemma OrderGrows(confirmed: seq<Bytes>, played: seq<Bytes>, written: seq<Bytes>, x: Bytes)
    requires InOrder(confirmed, played, written)
    ensures InOrder(confirmed, played, written + [x])
    ensures Playable(x) ==> InOrder(confirmed, played + [x], written + [x])
    ensures Playable(x) ==> InOrder(confirmed + [x], played + [x], written + [x])
  {
    hide IsSubsequence;
    SubsequenceGrows(confirmed, played, x);
    SubsequenceGrows(played, written, x);
  }

  /** What one more write adds. */
  lemma LastWrite(front: seq<WriteCall>, last: WriteCall)
    ensures var (before, after) := (WriteAll(front), WriteAll(front + [last]));
            var confirmed, more := Confirmed(front, before.1), Confirmed(front + [last], after.1);
            && after.0.capture == before.0.capture
            && (|| (more == confirmed && after.0.played == before.0.played)
                || (Playable(last.pcm) && after.0.played == before.0.played + [last.pcm]
                    && (more == confirmed || more == confirmed + [last.pcm])))
    ensures Buffers(front + [last]) == Buffers(front) + [last.pcm]
  {
    var calls := front + [last];
    assert calls[..|calls| - 1] == front && WriteAll(calls).1[..|front|] == WriteAll(front).1;
  }

  /** Over any writes to a playback device: what is played is what was written,
      in order, with refused buffers left out; every buffer whose write returned
      1 is in it; and no buffer is empty, odd or too long. */
  lemma {:induction false} PlaybackKeepsOrder(calls: seq<WriteCall>)
    ensures var (audio, results) := WriteAll(calls);
            !audio.capture && InOrder(Confirmed(calls, results), audio.played, Buffers(calls))
  {
    if calls != [] {
      var front, last := calls[..|calls| - 1], calls[|calls| - 1];
      PlaybackKeepsOrder(front);
      hide InOrder, Playable, WriteAll, Confirmed, Buffers;
      LastWrite(front, last);
      assert calls == front + [last];
      OrderGrows(Confirmed(front, WriteAll(front).1), WriteAll(front).0.played, Buffers(front), last.pcm);
    }
  }

  /** A buffer that a working device with space for it can allocate. */
  predicate Plays(failed: bool, c: WriteCall) {
    2 <= |c.pcm| <= 24000 && |c.pcm| % 2 == 0 && !failed && !c.busError && c.level + |c.pcm| <= 24000 && c.allocates
  }

  /** After any writes, what one more plays and returns, and when it fails the
      device: when a write worth a look at the bus finds an error there. */
  lemma WhatAWriteDoes(calls: seq<WriteCall>, c: WriteCall)
    ensures var (before, after) := (WriteAll(calls), WriteAll(calls + [c]));
            var plays := Plays(before.0.failed, c);
            && after.0.played == before.0.played + (if plays then [c.pcm] else [])
            && after.1 == before.1 + [if plays && c.flows then 1 else -1]
            && (after.0.failed <==> before.0.failed || (Playable(c.pcm) && c.busError))
  {
    PlaybackKeepsOrder(calls);
    assert (calls + [c])[..|calls|] == calls;
  }

  /** A playback device yields nothing and a capture device plays nothing. */
  lemma OneDirection(a: Audio, capacity: nat, pcm: Bytes, c: WriteCall, extracts: bool)
    ensures !a.capture ==> ReadAlone(a, capacity, c.busError, extracts) == (a, -1, [])
    ensures a.capture ==> WriteAlone(a, pcm, c.busError, c.level, c.allocates, c.flows) == (a, -1)
  {
  }

  /** Once the playback device failed, every later write returns -1 and plays
      nothing. */
  lemma {:induction false} PlaybackFailureIsFinal(calls: seq<WriteCall>, more: seq<WriteCall>)
    requires WriteAll(calls).0.failed
    ensures var (before, after) := (WriteAll(calls), WriteAll(calls + more));
            && after.0.failed && after.0.played == before.0.played
            && forall i | |calls| <= i < |calls + more| :: after.1[i] == -1
  {
    if more == [] {
      assert calls + more == calls;
    } else {
      var front := more[..|more| - 1];
      assert (calls + more)[..|calls + more| - 1] == calls + front;
      PlaybackFailureIsFinal(calls, front);
    }
  }
}
