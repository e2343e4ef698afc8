/** The host-address snapshot race of the sandbox runner.

    The runner snapshots the host's IPv4 and IPv6 addresses (two separate
    reads) and turns the snapshot into deny rules.  An `ip monitor` process
    forwards the kernel's address events into a FIFO, and a watcher subshell
    reads that FIFO, compares each event with the snapshot and rescans.  The
    kernel may change addresses, and any helper may die, between any two steps.
    All that is assumed of the kernel is that a change after subscription emits
    some event about the changed family; what the event says is arbitrary,
    except where a lemma asks for `Truthful` steps.

    The model is a step relation: `Enabled` and `Apply` give the steps of the
    kernel, the monitor, the watcher and the runner. */
module AddressWatch {

  datatype Family = V4 | V6

  type Address = string

  /** One line of a snapshot file: the family digit and the address. */
  datatype Line = Line(family: Family, address: Address)

  datatype Addresses = Addresses(v4: set<Address>, v6: set<Address>) {
    function Of(f: Family): set<Address> {
      match f
      case V4 => v4
      case V6 => v6
    }
  }

  /** The sorted, duplicate-free file that holds both families' lines. */
  function Lines(a: Addresses): set<Line> {
    (set x | x in a.v4 :: Line(V4, x)) + (set x | x in a.v6 :: Line(V6, x))
  }

  /** A line of `ip monitor address`.  Garbled stands for a line from which
      exactly one address cannot be extracted. */
  datatype Event =
    | Added(line: Line)
    | Deleted(line: Line)
    | Garbled(about: Family)
  {
    function Family(): Family {
      match this
      case Added(l) => l.family
      case Deleted(l) => l.family
      case Garbled(f) => f
    }
  }

  datatype Watcher =
    | AtGate
    | Idle
    | Holding(event: Event)
    | BeforeV4
    | BeforeV6(read4: set<Address>)
    | Comparing(current: Addresses)
    | Gone

  datatype Runner =
    | Starting
    | ReadingV4
    | ReadingV6(got4: set<Address>)
    | Snapped(taken: Addresses)
    | Serving(snapshot: Addresses)
    | Cleaning

  datatype State = State(
    host: Addresses,
    subscribed: set<Family>,
    monitorUp: bool,
    netlink: seq<Event>,
    fifo: seq<Event>,
    watcher: Watcher,
    runner: Runner,
    denied: set<Line>,
    failure: bool,
    killed: bool,
    cleanup: bool)

  datatype Step =
    | Add(line: Line, report: Event)
    | Remove(line: Line, report: Event)
    | Report(report: Event)
    | Subscribe(family: Family)
    | Forward
    | MonitorDies
    | WatcherGo
    | WatcherReads
    | WatcherEof(killWorks: bool)
    | WatcherClassifies(killWorks: bool)
    | WatcherScansV4
    | WatcherScansV6
    | WatcherScanFails(killWorks: bool)
    | WatcherCompares(killWorks: bool)
    | WatcherCrashes
    | RunnerSeesSubscription
    | RunnerReadsV4
    | RunnerReadsV6
    | RunnerPublishes
    | RunnerFails
    | RunnerSupervises(killWorks: bool)

  const BothFamilies: set<Family> := {V4, V6}

  ghost predicate Init(s: State) {
    && s.subscribed == {} && s.monitorUp && s.netlink == [] && s.fifo == []
    && s.watcher == AtGate && s.runner == Starting && s.denied == {}
    && !s.failure && !s.killed && !s.cleanup
  }

  function ChangeHost(host: Addresses, l: Line, present: bool): Addresses {
    match l.family
    case V4 => host.(v4 := if present then host.v4 + {l.address} else host.v4 - {l.address})
    case V6 => host.(v6 := if present then host.v6 + {l.address} else host.v6 - {l.address})
  }

  /** The kernel queues an event for a monitor that is subscribed to its family. */
  function Emit(s: State, e: Event): State {
    if s.monitorUp && e.Family() in s.subscribed then s.(netlink := s.netlink + [e]) else s
  }

  /** A successful write to cgroup.kill takes every helper in the leaf with it. */
  function Kill(s: State, works: bool): State {
    if works then s.(killed := true, monitorUp := false, netlink := [], watcher := Gone) else s
  }

  /** terminate_monitored_sandbox followed by the watcher's exit: silent once
      cleanup was requested, and the kill itself may fail. */
  function Terminate(s: State, killWorks: bool): State {
    if s.cleanup then s.(watcher := Gone)
    else Kill(s.(failure := true, watcher := Gone), killWorks)
  }

  ghost predicate Enabled(s: State, step: Step) {
    match step
    case Add(l, e) => l.address !in s.host.Of(l.family) && e.Family() == l.family
    case Remove(l, e) => l.address in s.host.Of(l.family) && e.Family() == l.family
    case Report(_) => true
    case Subscribe(f) => s.monitorUp
    case Forward => s.monitorUp && s.netlink != []
    case MonitorDies => s.monitorUp
    case WatcherGo => s.watcher.AtGate?
    case WatcherReads => s.watcher.Idle? && s.fifo != []
    // The runner keeps a writer on the FIFO until it starts the snapshot.
    case WatcherEof(_) => s.watcher.Idle? && s.fifo == [] && !s.monitorUp && !s.runner.Starting?
    case WatcherClassifies(_) => s.watcher.Holding? && s.runner.Serving?
    case WatcherScansV4 => s.watcher.BeforeV4?
    case WatcherScansV6 => s.watcher.BeforeV6?
    case WatcherScanFails(_) => s.watcher.BeforeV4? || s.watcher.BeforeV6?
    case WatcherCompares(_) => s.watcher.Comparing? && s.runner.Serving?
    case WatcherCrashes => !s.watcher.Gone?
    case RunnerSeesSubscription =>
      s.runner.Starting? && !s.watcher.AtGate? && s.monitorUp && BothFamilies <= s.subscribed
    case RunnerReadsV4 => s.runner.ReadingV4?
    case RunnerReadsV6 => s.runner.ReadingV6?
    case RunnerPublishes => s.runner.Snapped?
    case RunnerFails => !s.runner.Cleaning?
    case RunnerSupervises(_) => s.runner.Serving?
  }

  function Apply(s: State, step: Step): State {
    match step
    case Add(l, e) => Emit(s.(host := ChangeHost(s.host, l, true)), e)
    case Remove(l, e) => Emit(s.(host := ChangeHost(s.host, l, false)), e)
    case Report(e) => Emit(s, e)
    case Subscribe(f) => s.(subscribed := s.subscribed + {f})
    case Forward => if s.netlink == [] then s
      else s.(fifo := s.fifo + [s.netlink[0]], netlink := s.netlink[1..])
    case MonitorDies => s.(monitorUp := false, netlink := [])
    case WatcherGo => s.(watcher := Idle)
    case WatcherReads => if s.fifo == [] then s
      else s.(watcher := Holding(s.fifo[0]), fifo := s.fifo[1..])
    case WatcherEof(k) => Terminate(s, k)
    case WatcherClassifies(k) =>
      if !s.watcher.Holding? || !s.runner.Serving? then s
      else if s.watcher.event.Added? && s.watcher.event.line in Lines(s.runner.snapshot)
      then s.(watcher := BeforeV4)
      else Terminate(s, k)
    case WatcherScansV4 => s.(watcher := BeforeV6(s.host.v4))
    case WatcherScansV6 => if !s.watcher.BeforeV6? then s
      else s.(watcher := Comparing(Addresses(s.watcher.read4, s.host.v6)))
    case WatcherScanFails(k) => Terminate(s, k)
    case WatcherCompares(k) =>
      if !s.watcher.Comparing? || !s.runner.Serving? then s
      else if Lines(s.watcher.current) == Lines(s.runner.snapshot) then s.(watcher := Idle)
      else Terminate(s, k)
    case WatcherCrashes => s.(watcher := Gone)
    case RunnerSeesSubscription => s.(runner := ReadingV4)
    case RunnerReadsV4 => s.(runner := ReadingV6(s.host.v4))
    case RunnerReadsV6 => if !s.runner.ReadingV6? then s
      else s.(runner := Snapped(Addresses(s.runner.got4, s.host.v6)))
    case RunnerPublishes =>
      if !s.runner.Snapped? then s
      else if Lines(s.runner.taken) == {} then s.(runner := Cleaning, cleanup := true)
      else s.(runner := Serving(s.runner.taken), denied := Lines(s.runner.taken))
    case RunnerFails => s.(runner := Cleaning, cleanup := true)
    case RunnerSupervises(k) =>
      if s.failure || !s.monitorUp || s.watcher.Gone?
      then Kill(s.(failure := true), k).(runner := Cleaning)
      else s
  }

  /** A run is a sequence of steps, each enabled where it is taken. */
  ghost predicate IsRun(s: State, steps: seq<Step>)
    decreases |steps|
  {
    steps == [] || (Enabled(s, steps[0]) && IsRun(Apply(s, steps[0]), steps[1..]))
  }

  function Final(s: State, steps: seq<Step>): State
    decreases |steps|
  {
    if steps == [] then s else Final(Apply(s, steps[0]), steps[1..])
  }

  // ----- What the runner and the watcher still owe each family -----

  /** Some event about f was emitted and has not been read by the watcher. */
  ghost predicate Unread(s: State, f: Family) {
    exists i | 0 <= i < |s.fifo + s.netlink| :: (s.fifo + s.netlink)[i].Family() == f
  }

  /** Both helpers run and nothing has condemned the sandbox. */
  ghost predicate Guarded(s: State) {
    s.monitorUp && !s.watcher.Gone? && !s.failure && !s.killed && !s.cleanup
  }

  /** The watcher is in the middle of an event and has not rescanned f. */
  ghost predicate StillToRescan(s: State, f: Family) {
    s.watcher.Holding? || s.watcher.BeforeV4? || (s.watcher.BeforeV6? && f == V6)
  }

  /** The watcher has rescanned f, and what it read differs from `reference`,
      so its comparison will condemn the sandbox. */
  ghost predicate RescanDisagrees(s: State, f: Family, reference: set<Address>) {
    || (s.watcher.BeforeV6? && f == V4 && s.watcher.read4 != reference)
    || (s.watcher.Comparing? && s.watcher.current.Of(f) != reference)
  }

  ghost predicate Accounted(s: State, f: Family, reference: set<Address>) {
    || s.host.Of(f) == reference
    || Unread(s, f)
    || StillToRescan(s, f)
    || RescanDisagrees(s, f, reference)
  }

  ghost predicate RescanFresh(s: State, f: Family) {
    && (s.watcher.BeforeV6? && f == V4 ==> s.watcher.read4 == s.host.v4 || Unread(s, V4))
    && (s.watcher.Comparing? ==> s.watcher.current.Of(f) == s.host.Of(f) || Unread(s, f))
  }

  ghost predicate SnapshotAccounted(s: State) {
    && (s.runner.ReadingV6? ==> Accounted(s, V4, s.runner.got4))
    && (s.runner.Snapped? ==> Accounted(s, V4, s.runner.taken.v4) && Accounted(s, V6, s.runner.taken.v6))
    && (s.runner.Serving? ==> Accounted(s, V4, s.runner.snapshot.v4) && Accounted(s, V6, s.runner.snapshot.v6))
  }

  ghost predicate Inv(s: State) {
    && (s.runner.Serving? ==> s.denied == Lines(s.runner.snapshot) && s.denied != {})
    && (s.runner.Cleaning? ==> s.cleanup || s.failure)
    && (s.killed ==> s.failure)
    && (s.watcher.BeforeV4? || s.watcher.BeforeV6? || s.watcher.Comparing?
        ==> s.runner.Serving? || s.runner.Cleaning?)
    && (Guarded(s) && !s.runner.Starting? ==> BothFamilies <= s.subscribed)
    && (Guarded(s) && !s.runner.Starting? ==> SnapshotAccounted(s))
    && (Guarded(s) && !s.runner.Starting? ==> RescanFresh(s, V4) && RescanFresh(s, V6))
  }

  // ----- Proofs -----

  lemma LinesDetermineAddresses(a: Addresses, b: Addresses)
    ensures Lines(a) == Lines(b) <==> a == b
  {
    if Lines(a) == Lines(b) {
      forall x ensures x in a.v4 <==> x in b.v4 {
        assert x in a.v4 <==> Line(V4, x) in Lines(a);
        assert x in b.v4 <==> Line(V4, x) in Lines(b);
      }
      forall x ensures x in a.v6 <==> x in b.v6 {
        assert x in a.v6 <==> Line(V6, x) in Lines(a);
        assert x in b.v6 <==> Line(V6, x) in Lines(b);
      }
    }
  }

  /** A queue that only grows keeps its unread events. */
  lemma UnreadGrows(s: State, t: State, f: Family)
    requires s.fifo + s.netlink <= t.fifo + t.netlink
    ensures Unread(s, f) ==> Unread(t, f)
  {
    if Unread(s, f) {
      var i :| 0 <= i < |s.fifo + s.netlink| && (s.fifo + s.netlink)[i].Family() == f;
      assert (t.fifo + t.netlink)[i].Family() == f;
    }
  }

  lemma KernelStepKeepsInv(s: State, t: State, e: Event)
    requires Inv(s)
    requires e.Family() == V4 || t.host.v4 == s.host.v4
    requires e.Family() == V6 || t.host.v6 == s.host.v6
    requires t == Emit(s.(host := t.host), e)
    ensures Inv(t)
  {
    if Guarded(t) && !t.runner.Starting? {
      assert t.netlink == s.netlink + [e];
      assert t.fifo + t.netlink == (s.fifo + s.netlink) + [e];
      assert (t.fifo + t.netlink)[|s.fifo + s.netlink|] == e;
      UnreadGrows(s, t, V4);
      UnreadGrows(s, t, V6);
    }
  }

  lemma QueueStepKeepsInv(s: State, step: Step)
    requires Inv(s) && Enabled(s, step)
    requires step.Forward? || step.WatcherReads?
    ensures Inv(Apply(s, step))
  {
    var t := Apply(s, step);
    if step.Forward? {
      assert t.fifo + t.netlink == s.fifo + s.netlink;
      UnreadGrows(s, t, V4);
      UnreadGrows(s, t, V6);
    }
  }

  lemma WatcherStepKeepsInv(s: State, step: Step)
    requires Inv(s) && Enabled(s, step)
    requires step.WatcherClassifies? || step.WatcherScansV4? || step.WatcherScansV6? || step.WatcherCompares?
    ensures Inv(Apply(s, step))
  {
    var t := Apply(s, step);
    if Guarded(t) {
      assert t.fifo == s.fifo && t.netlink == s.netlink;
      assert forall f :: Unread(s, f) <==> Unread(t, f);
      if step.WatcherCompares? {
        LinesDetermineAddresses(s.watcher.current, s.runner.snapshot);
      }
    }
  }

  lemma RunnerStepKeepsInv(s: State, step: Step)
    requires Inv(s) && Enabled(s, step)
    requires step.RunnerSeesSubscription? || step.RunnerReadsV4? || step.RunnerReadsV6? || step.RunnerPublishes?
    ensures Inv(Apply(s, step))
  {
    var t := Apply(s, step);
    if Guarded(t) {
      assert t.fifo == s.fifo && t.netlink == s.netlink;
      assert forall f :: Unread(s, f) <==> Unread(t, f);
    }
  }

  lemma OtherStepKeepsInv(s: State, step: Step)
    requires Inv(s) && Enabled(s, step)
    requires step.Subscribe? || step.MonitorDies? || step.WatcherGo? || step.WatcherEof? || step.WatcherScanFails?
          || step.WatcherCrashes? || step.RunnerFails? || step.RunnerSupervises?
    ensures Inv(Apply(s, step))
  {
    var t := Apply(s, step);
    if Guarded(t) {
      assert t.fifo == s.fifo && t.netlink == s.netlink;
      assert forall f :: Unread(s, f) <==> Unread(t, f);
    }
  }

  /** Every step of every party keeps the invariant. */
  lemma StepKeepsInv(s: State, step: Step)
    requires Inv(s) && Enabled(s, step)
    ensures Inv(Apply(s, step))
  {
    match step
    case Add(l, e) => KernelStepKeepsInv(s, Apply(s, step), e);
    case Remove(l, e) => KernelStepKeepsInv(s, Apply(s, step), e);
    case Report(e) => KernelStepKeepsInv(s, Apply(s, step), e);
    case Forward => QueueStepKeepsInv(s, step);
    case WatcherReads => QueueStepKeepsInv(s, step);
    case WatcherClassifies(_) => WatcherStepKeepsInv(s, step);
    case WatcherScansV4 => WatcherStepKeepsInv(s, step);
    case WatcherScansV6 => WatcherStepKeepsInv(s, step);
    case WatcherCompares(_) => WatcherStepKeepsInv(s, step);
    case RunnerSeesSubscription => RunnerStepKeepsInv(s, step);
    case RunnerReadsV4 => RunnerStepKeepsInv(s, step);
    case RunnerReadsV6 => RunnerStepKeepsInv(s, step);
    case RunnerPublishes => RunnerStepKeepsInv(s, step);
    case _ => OtherStepKeepsInv(s, step);
  }

  lemma {:induction false} RunKeepsInv(s: State, steps: seq<Step>)
    requires Inv(s) && IsRun(s, steps)
    ensures Inv(Final(s, steps))
    decreases |steps|
  {
    if steps != [] {
      StepKeepsInv(s, steps[0]);
      RunKeepsInv(Apply(s, steps[0]), steps[1..]);
    }
  }

  /** No address change is lost.  In every state that any run reaches while the
      sandbox is served, is not condemned and both helpers live, each family
      either still equals the snapshot behind the deny rules, or has an unread
      event, or the watcher is mid-event and has yet to rescan that family or
      has already read a disagreement. */
  lemma NoChangeIsLost(start: State, steps: seq<Step>, f: Family)
    requires Init(start) && IsRun(start, steps)
    ensures var s := Final(start, steps);
            s.runner.Serving? && Guarded(s) ==>
              && s.denied == Lines(s.runner.snapshot) && s.denied != {}
              && (|| s.host.Of(f) == s.runner.snapshot.Of(f)
                  || Unread(s, f)
                  || StillToRescan(s, f)
                  || RescanDisagrees(s, f, s.runner.snapshot.Of(f)))
  {
    RunKeepsInv(start, steps);
  }

  /** Once the events are drained and the watcher is back at its loop head, the
      denied lines are exactly the host's current addresses. */
  lemma DrainedMeansExact(start: State, steps: seq<Step>)
    requires Init(start) && IsRun(start, steps)
    ensures var s := Final(start, steps);
            s.runner.Serving? && Guarded(s) && s.watcher.Idle? && s.fifo == [] && s.netlink == []
            ==> s.denied == Lines(s.host)
  {
    RunKeepsInv(start, steps);
    var s := Final(start, steps);
    if s.runner.Serving? && Guarded(s) && s.watcher.Idle? && s.fifo == [] && s.netlink == [] {
      assert Accounted(s, V4, s.runner.snapshot.Of(V4));
      assert Accounted(s, V6, s.runner.snapshot.Of(V6));
      assert s.host == s.runner.snapshot;
    }
  }

  // ----- When every event tells the truth -----

  /** Changes are announced as what they are. */
  predicate Truthful(step: Step) {
    match step
    case Add(l, e) => e == Added(l)
    case Remove(l, e) => e == Deleted(l)
    case _ => true
  }

  /** An event the watcher turns into a kill, given the snapshot of its family. */
  predicate Fatal(e: Event, reference: set<Address>) {
    !e.Added? || e.line.address !in reference
  }

  /** Everything the watcher has not classified yet, oldest first. */
  function Unclassified(s: State): seq<Event> {
    (if s.watcher.Holding? then [s.watcher.event] else []) + s.fifo + s.netlink
  }

  ghost predicate FatalPending(s: State, f: Family, reference: set<Address>) {
    exists i | 0 <= i < |Unclassified(s)| ::
      Unclassified(s)[i].Family() == f && Fatal(Unclassified(s)[i], reference)
  }

  ghost predicate Foretold(s: State, f: Family, reference: set<Address>) {
    s.host.Of(f) == reference || FatalPending(s, f, reference)
  }

  ghost predicate SnapshotForetold(s: State) {
    && (s.runner.ReadingV6? ==> Foretold(s, V4, s.runner.got4))
    && (s.runner.Snapped? ==> Foretold(s, V4, s.runner.taken.v4) && Foretold(s, V6, s.runner.taken.v6))
    && (s.runner.Serving? ==> Foretold(s, V4, s.runner.snapshot.v4) && Foretold(s, V6, s.runner.snapshot.v6))
  }

  ghost predicate TruthInv(s: State) {
    Inv(s) && (Guarded(s) && !s.runner.Starting? ==> SnapshotForetold(s))
  }

  lemma FatalPendingStays(s: State, t: State, f: Family, reference: set<Address>)
    requires Unclassified(s) <= Unclassified(t)
    ensures FatalPending(s, f, reference) ==> FatalPending(t, f, reference)
  {
    if FatalPending(s, f, reference) {
      var i :| 0 <= i < |Unclassified(s)| && Unclassified(s)[i].Family() == f && Fatal(Unclassified(s)[i], reference);
      assert Unclassified(t)[i] == Unclassified(s)[i];
    }
  }

  /** A truthful change leaves its family as foretold as it was. */
  lemma ChangeIsForetold(s: State, step: Step, f: Family, reference: set<Address>)
    requires Enabled(s, step) && Truthful(step) && (step.Add? || step.Remove? || step.Report?)
    requires s.monitorUp && BothFamilies <= s.subscribed && Foretold(s, f, reference)
    ensures Foretold(Apply(s, step), f, reference)
  {
    var t := Apply(s, step);
    assert step.report.Family() in BothFamilies by { match step.report.Family() case V4 => case V6 => }
    assert Unclassified(t) == Unclassified(s) + [step.report];
    FatalPendingStays(s, t, f, reference);
    assert Unclassified(t)[|Unclassified(s)|] == step.report;
  }

  /** Classifying an event that is not fatal leaves the fatal ones pending. */
  lemma ClassifyingKeepsForetold(s: State, step: Step, f: Family)
    requires Enabled(s, step) && step.WatcherClassifies? && Apply(s, step).watcher == BeforeV4
    requires Foretold(s, f, s.runner.snapshot.Of(f))
    ensures Foretold(Apply(s, step), f, s.runner.snapshot.Of(f))
  {
    var t := Apply(s, step);
    var reference := s.runner.snapshot.Of(f);
    assert Unclassified(s) == [s.watcher.event] + Unclassified(t);
    if FatalPending(s, f, reference) {
      var i :| 0 <= i < |Unclassified(s)| && Unclassified(s)[i].Family() == f && Fatal(Unclassified(s)[i], reference);
      assert i != 0;
      assert Unclassified(t)[i - 1] == Unclassified(s)[i];
    }
  }

  lemma TruthfulStepKeepsInv(s: State, step: Step)
    requires TruthInv(s) && Enabled(s, step) && Truthful(step)
    ensures TruthInv(Apply(s, step))
  {
    StepKeepsInv(s, step);
    var t := Apply(s, step);
    if Guarded(t) && !s.runner.Starting? {
      if step.Add? || step.Remove? || step.Report? {
        if s.runner.ReadingV6? { ChangeIsForetold(s, step, V4, s.runner.got4); }
        if s.runner.Snapped? {
          ChangeIsForetold(s, step, V4, s.runner.taken.v4);
          ChangeIsForetold(s, step, V6, s.runner.taken.v6);
        }
        if s.runner.Serving? {
          ChangeIsForetold(s, step, V4, s.runner.snapshot.v4);
          ChangeIsForetold(s, step, V6, s.runner.snapshot.v6);
        }
      } else if step.WatcherClassifies? {
        ClassifyingKeepsForetold(s, step, V4);
        ClassifyingKeepsForetold(s, step, V6);
      } else {
        assert Unclassified(t) == Unclassified(s);
      }
    }
  }

  lemma {:induction false} TruthfulRunKeepsInv(s: State, steps: seq<Step>)
    requires TruthInv(s) && IsRun(s, steps)
    requires forall step | step in steps :: Truthful(step)
    ensures TruthInv(Final(s, steps))
    decreases |steps|
  {
    if steps != [] {
      TruthfulStepKeepsInv(s, steps[0]);
      TruthfulRunKeepsInv(Apply(s, steps[0]), steps[1..]);
    }
  }

  /** With truthful events a family that differs from the snapshot always has an
      unclassified event that will condemn the sandbox on its own, so the last
      alternative of NoChangeIsLost is not needed: the family equals the
      snapshot, or has an unread event, or the watcher is about to classify one. */
  lemma TruthfulChangeIsForetold(start: State, steps: seq<Step>, f: Family)
    requires Init(start) && IsRun(start, steps)
    requires forall step | step in steps :: Truthful(step)
    ensures var s := Final(start, steps);
            s.runner.Serving? && Guarded(s) ==>
              && (s.host.Of(f) == s.runner.snapshot.Of(f) || FatalPending(s, f, s.runner.snapshot.Of(f)))
              && (s.host.Of(f) == s.runner.snapshot.Of(f) || Unread(s, f) || s.watcher.Holding?)
  {
    TruthfulRunKeepsInv(start, steps);
    var s := Final(start, steps);
    if s.runner.Serving? && Guarded(s) && s.host.Of(f) != s.runner.snapshot.Of(f) && !s.watcher.Holding? {
      assert Unclassified(s) == s.fifo + s.netlink;
    }
  }

  // ----- Which report hides a change -----

  /** The three-way reading: the family equals the snapshot, or has an unread
      event, or is still to be rescanned. */
  ghost predicate InPlainSight(s: State, f: Family)
    requires s.runner.Serving?
  {
    s.host.Of(f) == s.runner.snapshot.Of(f) || Unread(s, f) || StillToRescan(s, f)
  }

  ghost predicate Breaks(s: State) {
    s.runner.Serving? && Guarded(s) && exists f :: !InPlainSight(s, f)
  }

  /** Served, guarded, drained, and the host is as it was snapshot. */
  ghost predicate Settled(s: State) {
    && s.runner == Serving(s.host) && Guarded(s)
    && s.watcher.Idle? && s.fifo == [] && s.netlink == []
  }

  ghost predicate CanBreak(s: State) {
    exists steps :: IsRun(s, steps) && Breaks(Final(s, steps))
  }

  /** Once lost, the guard does not come back. */
  lemma UnguardedStays(s: State, step: Step)
    requires !Guarded(s) && Enabled(s, step)
    ensures !Guarded(Apply(s, step))
  {
  }

  /** A fatal event is the next the watcher reads, or the one it holds. */
  ghost predicate FatalIsNext(s: State, e: Event, snapshot: Addresses) {
    && s.runner == Serving(snapshot) && Fatal(e, snapshot.Of(e.Family()))
    && (|| (s.watcher.Idle? && s.fifo + s.netlink != [] && (s.fifo + s.netlink)[0] == e)
        || s.watcher == Holding(e))
  }

  /** Nothing passes a fatal event: it is classified first, and condemns. */
  lemma FatalStaysNext(s: State, step: Step, e: Event, snapshot: Addresses)
    requires Enabled(s, step) && FatalIsNext(s, e, snapshot)
    ensures !Guarded(Apply(s, step)) || FatalIsNext(Apply(s, step), e, snapshot)
  {
    var t := Apply(s, step);
    if step.Add? || step.Remove? || step.Report? {
      assert s.fifo + s.netlink <= t.fifo + t.netlink;
    } else if step.Forward? {
      assert s.netlink == [s.netlink[0]] + s.netlink[1..];
      assert t.fifo + t.netlink == s.fifo + s.netlink;
    } else if step.WatcherReads? {
      assert (s.fifo + s.netlink)[0] == s.fifo[0];
    } else if step.WatcherClassifies? {
      FatalIsNotListed(e, snapshot);
    }
  }

  lemma FatalIsNotListed(e: Event, snapshot: Addresses)
    ensures Fatal(e, snapshot.Of(e.Family())) <==> !(e.Added? && e.line in Lines(snapshot))
  {
    if e.Added? { match e.line.family case V4 => case V6 => }
  }

  /** While a fatal event is next, no run breaks the three-way reading. */
  lemma {:induction false} FatalNeverBreaks(s: State, steps: seq<Step>, e: Event, snapshot: Addresses)
    requires Inv(s) && IsRun(s, steps) && (!Guarded(s) || FatalIsNext(s, e, snapshot))
    ensures !Breaks(Final(s, steps))
    decreases |steps|
  {
    if steps == [] {
      if Guarded(s) {
        forall f ensures InPlainSight(s, f) {
          assert Accounted(s, f, s.runner.snapshot.Of(f)) by { match f case V4 => case V6 => }
        }
      }
    } else {
      StepKeepsInv(s, steps[0]);
      if Guarded(s) { FatalStaysNext(s, steps[0], e, snapshot); } else { UnguardedStays(s, steps[0]); }
      FatalNeverBreaks(Apply(s, steps[0]), steps[1..], e, snapshot);
    }
  }

  /** An event that only names a snapshot address is read and passed, and its
      rescan is what finds the change. */
  lemma MereRefreshBreaks(s: State, e: Event) returns (steps: seq<Step>)
    requires s.runner.Serving? && Guarded(s) && s.watcher.Idle? && s.fifo == [] && s.netlink == [e]
    requires !Fatal(e, s.runner.snapshot.Of(e.Family()))
    requires s.host.Of(e.Family()) != s.runner.snapshot.Of(e.Family())
    ensures IsRun(s, steps) && Breaks(Final(s, steps))
  {
    hide IsRun, Final;
    steps := NoSteps(s);
    steps := Extend(s, steps, Forward);
    steps := Extend(s, steps, WatcherReads);
    var read := s.(netlink := [], watcher := Holding(e));
    assert Final(s, steps) == read;
    FatalIsNotListed(e, s.runner.snapshot);
    steps := Extend(s, steps, WatcherClassifies(true));
    assert Final(s, steps) == read.(watcher := BeforeV4);
    steps := Extend(s, steps, WatcherScansV4);
    steps := Extend(s, steps, WatcherScansV6);
    var t := Final(s, steps);
    assert t == read.(watcher := Comparing(s.host));
    assert !InPlainSight(t, e.Family());
  }

  lemma NoSteps(s: State) returns (steps: seq<Step>)
    ensures steps == [] && IsRun(s, steps) && Final(s, steps) == s
  {
    steps := [];
  }

  /** The exact condition.  A change of a settled host can come to stand in
      neither the snapshot, nor an unread event, nor a pending rescan, exactly
      when the watcher's classification lets its report pass: when the report is
      an addition of an address that the family's snapshot holds. */
  lemma ReportHidesChangeIff(start: State, before: seq<Step>, change: Step)
    requires Init(start) && IsRun(start, before) && Settled(Final(start, before))
    requires (change.Add? || change.Remove?) && Enabled(Final(start, before), change)
    ensures var s := Final(start, before);
            CanBreak(Apply(s, change)) <==> !Fatal(change.report, s.runner.snapshot.Of(change.line.family))
  {
    var s := Final(start, before);
    var t, e, f := Apply(s, change), change.report, change.line.family;
    RunKeepsInv(start, before);
    assert f in BothFamilies by { match f case V4 => case V6 => }
    assert t.netlink == [e];
    if Fatal(e, s.runner.snapshot.Of(f)) {
      StepKeepsInv(s, change);
      forall steps | IsRun(t, steps) ensures !Breaks(Final(t, steps)) {
        FatalNeverBreaks(t, steps, e, s.host);
      }
    } else {
      ChangeDiffers(s.host, change.line);
      var steps := MereRefreshBreaks(t, e);
    }
  }

  lemma ChangeDiffers(host: Addresses, l: Line)
    ensures l.address !in host.Of(l.family) ==> ChangeHost(host, l, true).Of(l.family) != host.Of(l.family)
    ensures l.address in host.Of(l.family) ==> ChangeHost(host, l, false).Of(l.family) != host.Of(l.family)
  {
    match l.family
    case V4 =>
      assert l.address in ChangeHost(host, l, true).v4 && l.address !in ChangeHost(host, l, false).v4;
    case V6 =>
      assert l.address in ChangeHost(host, l, true).v6 && l.address !in ChangeHost(host, l, false).v6;
  }

  const Home: Line := Line(V4, "10.0.0.1")
  const Other: Line := Line(V4, "10.0.0.2")
  const OneAddress: Addresses := Addresses({Home.address}, {})
  const Beginning: State :=
    State(OneAddress, {}, true, [], [], AtGate, Starting, {}, false, false, false)

  /** The run in which nothing happens before the sandbox is served. */
  lemma UsualStart(start: State) returns (steps: seq<Step>)
    requires Init(start) && Lines(start.host) != {}
    ensures IsRun(start, steps)
    ensures Final(start, steps) == start.(subscribed := BothFamilies, watcher := Idle,
                                          runner := Serving(start.host), denied := Lines(start.host))
  {
    steps := [];
    steps := Extend(start, steps, Subscribe(V4));
    steps := Extend(start, steps, Subscribe(V6));
    var s1 := start.(subscribed := BothFamilies);
    assert Final(start, steps) == s1;
    steps := Extend(start, steps, WatcherGo);
    var s2 := s1.(watcher := Idle);
    assert Final(start, steps) == s2;
    steps := Extend(start, steps, RunnerSeesSubscription);
    assert Final(start, steps) == s2.(runner := ReadingV4);
    steps := Extend(start, steps, RunnerReadsV4);
    assert Final(start, steps) == s2.(runner := ReadingV6(start.host.v4));
    steps := Extend(start, steps, RunnerReadsV6);
    assert Final(start, steps) == s2.(runner := Snapped(start.host));
    steps := Extend(start, steps, RunnerPublishes);
  }

  /** Without truthful events the last alternative is needed: a change reported
      as a mere refresh is found by nothing but the rescan. */
  lemma OnlyTheRescanFindsAMisreportedChange() returns (start: State, steps: seq<Step>)
    ensures Init(start) && IsRun(start, steps)
    ensures var s := Final(start, steps);
            && s.runner.Serving? && Guarded(s)
            && s.host.Of(V4) != s.runner.snapshot.Of(V4)
            && !Unread(s, V4) && !StillToRescan(s, V4)
  {
    hide IsRun, Final;
    start := Beginning;
    assert Home in Lines(OneAddress);
    steps := MisreportedChange();
    steps := Extend(start, steps, WatcherClassifies(true));
    steps := Extend(start, steps, WatcherScansV4);
    assert Other.address in Final(start, steps).host.v4;
  }

  const Served: State :=
    Beginning.(subscribed := BothFamilies, watcher := Idle, runner := Serving(OneAddress), denied := Lines(OneAddress))

  /** A second address appears, and is reported as the first. */
  lemma MisreportedChange() returns (steps: seq<Step>)
    ensures IsRun(Beginning, steps)
    ensures Final(Beginning, steps)
         == Served.(host := ChangeHost(OneAddress, Other, true), watcher := Holding(Added(Home)))
  {
    hide IsRun, Final;
    assert Home in Lines(OneAddress);
    steps := UsualStart(Beginning);
    steps := Extend(Beginning, steps, Add(Other, Added(Home)));
    var changed := Served.(host := ChangeHost(OneAddress, Other, true));
    assert Final(Beginning, steps) == changed.(netlink := [Added(Home)]);
    steps := Extend(Beginning, steps, Forward);
    steps := Extend(Beginning, steps, WatcherReads);
  }

  /** A run followed by one more enabled step is a run. */
  lemma {:induction false} Extend(s: State, steps: seq<Step>, last: Step) returns (longer: seq<Step>)
    requires IsRun(s, steps) && Enabled(Final(s, steps), last)
    ensures longer == steps + [last]
    ensures IsRun(s, longer) && Final(s, longer) == Apply(Final(s, steps), last)
    decreases |steps|
  {
    longer := steps + [last];
    if steps == [] {
      assert longer[1..] == [];
    } else {
      var rest := Extend(Apply(s, steps[0]), steps[1..], last);
      assert longer[1..] == rest;
    }
  }

  // ----- To condemn the sandbox is to kill it -----

  /** A step whose write to cgroup.kill, if it makes one, succeeds. */
  predicate KillWorks(step: Step) {
    match step
    case WatcherEof(works) => works
    case WatcherClassifies(works) => works
    case WatcherScanFails(works) => works
    case WatcherCompares(works) => works
    case RunnerSupervises(works) => works
    case _ => true
  }

  /** Nothing that was ever in the leaf runs on after a recorded failure. */
  ghost predicate CondemnedIsKilled(s: State) {
    s.failure ==> s.killed && !s.monitorUp && s.netlink == [] && s.watcher.Gone?
  }

  lemma {:induction false} CondemnedStaysKilled(s: State, steps: seq<Step>)
    requires CondemnedIsKilled(s) && IsRun(s, steps)
    requires forall step | step in steps :: KillWorks(step)
    ensures CondemnedIsKilled(Final(s, steps))
    ensures s.killed && s.failure ==> Final(s, steps).killed
    decreases |steps|
  {
    if steps != [] {
      assert KillWorks(steps[0]);
      CondemnedStaysKilled(Apply(s, steps[0]), steps[1..]);
    }
  }

  /** While the kernel takes the writes to cgroup.kill, a failure recorded by
      anyone in any run means that the leaf was killed, helpers and all. */
  lemma FailureKills(start: State, steps: seq<Step>)
    requires Init(start) && IsRun(start, steps)
    requires forall step | step in steps :: KillWorks(step)
    ensures var s := Final(start, steps);
            s.failure ==> s.killed && !s.monitorUp && s.netlink == [] && s.watcher.Gone?
  {
    CondemnedStaysKilled(start, steps);
  }

  /** When the watcher condemns: at the end of the event stream, when a rescan
      fails, on an event that is not the addition of a snapshot line, and when
      the rescan disagrees with the snapshot.  It then kills in that very step;
      otherwise, and once cleanup was requested, it leaves the sandbox alone. */
  lemma WatcherCondemnsIff(s: State, step: Step)
    requires Enabled(s, step) && KillWorks(step) && !s.failure && !s.killed
    requires step.WatcherEof? || step.WatcherClassifies? || step.WatcherScanFails? || step.WatcherCompares?
    ensures var t := Apply(s, step);
            && (t.killed <==>
                && !s.cleanup
                && (step.WatcherClassifies? ==> Fatal(s.watcher.event, s.runner.snapshot.Of(s.watcher.event.Family())))
                && (step.WatcherCompares? ==> s.watcher.current != s.runner.snapshot))
            && (t.killed <==> t.failure)
            && (t.killed ==> !t.monitorUp && t.netlink == [] && t.watcher.Gone?)
            && (Guarded(s) && !t.killed ==> Guarded(t))
  {
    if step.WatcherClassifies? {
      FatalIsNotListed(s.watcher.event, s.runner.snapshot);
    } else if step.WatcherCompares? {
      LinesDetermineAddresses(s.watcher.current, s.runner.snapshot);
    }
  }

  /** A step in which a helper or the runner gives up by itself. */
  predicate GivesUp(step: Step) {
    step.MonitorDies? || step.WatcherCrashes? || step.RunnerFails?
  }

  /** A fatal event that is next kills the sandbox no later than when it is
      classified, whatever else happens before and after. */
  lemma {:induction false} FatalKills(s: State, steps: seq<Step>, e: Event, snapshot: Addresses)
    requires IsRun(s, steps) && CondemnedIsKilled(s)
    requires (s.killed && s.failure) || (Guarded(s) && FatalIsNext(s, e, snapshot))
    requires forall step | step in steps :: KillWorks(step) && !GivesUp(step)
    requires s.killed || exists step | step in steps :: step.WatcherClassifies?
    ensures Final(s, steps).killed
    decreases |steps|
  {
    if s.killed {
      CondemnedStaysKilled(s, steps);
    } else {
      var step := steps[0];
      var t := Apply(s, step);
      assert KillWorks(step) && !GivesUp(step);
      FatalStaysNext(s, step, e, snapshot);
      if step.WatcherClassifies? { WatcherCondemnsIff(s, step); }
      assert forall other | other in steps :: other == step || other in steps[1..];
      FatalKills(t, steps[1..], e, snapshot);
    }
  }

  /** The supervising runner ends a sandbox that lost a helper or was condemned,
      kills it, and leaves any other alone. */
  lemma SupervisionEndsIff(s: State)
    requires s.runner.Serving?
    ensures var t := Apply(s, RunnerSupervises(true));
            && (t.runner.Cleaning? <==> !s.monitorUp || s.watcher.Gone? || s.failure)
            && (t.runner.Cleaning? ==> t.killed && t.failure && !t.monitorUp && t.watcher.Gone?)
            && (!t.runner.Cleaning? ==> t == s)
  {
  }

  // ----- The watcher condemns only for a reason -----

  /** A step of a host whose addresses stay put, whose events only re-announce
      them, and whose tools keep working. */
  predicate Benign(step: Step, host: Addresses) {
    match step
    case Add(_, _) => false
    case Remove(_, _) => false
    case Report(e) => e.Added? && e.line in Lines(host)
    case MonitorDies => false
    case WatcherScanFails(_) => false
    case WatcherCrashes => false
    case RunnerFails => false
    case _ => true
  }

  ghost predicate Calm(s: State, host: Addresses) {
    && s.host == host
    && s.monitorUp && !s.watcher.Gone? && !s.failure && !s.killed
    && (forall e | e in s.fifo + s.netlink :: e.Added? && e.line in Lines(host))
    && (s.watcher.Holding? ==> s.watcher.event.Added? && s.watcher.event.line in Lines(host))
    && (s.watcher.BeforeV6? ==> s.watcher.read4 == host.v4)
    && (s.watcher.Comparing? ==> s.watcher.current == host)
    && (s.runner.ReadingV6? ==> s.runner.got4 == host.v4)
    && (s.runner.Snapped? ==> s.runner.taken == host)
    && (s.runner.Serving? ==> s.runner.snapshot == host)
    && (s.runner.Cleaning? ==> Lines(host) == {})
  }

  lemma StepKeepsCalm(s: State, step: Step, host: Addresses)
    requires Calm(s, host) && Enabled(s, step) && Benign(step, host)
    ensures Calm(Apply(s, step), host)
  {
    if step.Report? {
      var t := Apply(s, step);
      assert t.fifo + t.netlink == s.fifo + s.netlink || t.fifo + t.netlink == (s.fifo + s.netlink) + [step.report];
    } else if step.Forward? {
      var t := Apply(s, step);
      assert t.fifo + t.netlink == s.fifo + s.netlink;
    } else if step.WatcherReads? {
      assert s.fifo[0] in s.fifo + s.netlink;
      var t := Apply(s, step);
      assert forall e | e in t.fifo + t.netlink :: e in s.fifo + s.netlink;
    }
  }

  /** While no address changes, no event says otherwise and no tool fails, no run
      ever condemns the sandbox. */
  lemma {:induction false} CalmIsNeverCondemned(s: State, steps: seq<Step>, host: Addresses)
    requires Calm(s, host) && IsRun(s, steps)
    requires forall step | step in steps :: Benign(step, host)
    ensures var t := Final(s, steps);
            !t.failure && !t.killed && !t.watcher.Gone? && (t.runner.Cleaning? ==> Lines(host) == {})
    decreases |steps|
  {
    if steps != [] {
      StepKeepsCalm(s, steps[0], host);
      CalmIsNeverCondemned(Apply(s, steps[0]), steps[1..], host);
    }
  }

  lemma UndisturbedHostIsNeverCondemned(start: State, steps: seq<Step>)
    requires Init(start) && IsRun(start, steps)
    requires forall step | step in steps :: Benign(step, start.host)
    ensures var t := Final(start, steps);
            !t.failure && !t.killed && (t.runner.Cleaning? ==> Lines(start.host) == {})
  {
    CalmIsNeverCondemned(start, steps, start.host);
  }
}
