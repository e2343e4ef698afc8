/** One sandbox generation per tenant: the tenant lock, the cgroup leaf, the
    gated start of the helpers and the cleanup of the sandbox runner.

    Any number of runners of one tenant interleave with each other, with their
    children and with abrupt kills.  The lock is an open file description that
    children inherit, so it stays taken while any holder of the descriptor
    lives.  Kill signals are not modelled as effects: a signalled process may
    die now, later or never, so nothing below relies on a kill working. */
module TenantLock {

  type RunnerId = nat
  type Pid = nat

  datatype Kind = Monitor | Watcher | Sandbox | Slirp | Descendant

  /** A child reads one line from its gate before it execs its program. */
  datatype Gate = Waiting | Signalled | Passed

  datatype Process = Process(owner: RunnerId, kind: Kind, gate: Gate, holdsLock: bool, inLeaf: bool, alive: bool)

  datatype Launch = ToFork | ToRecord(pid: Pid) | ToPlace(pid: Pid) | ToVerify(pid: Pid) | ToSignal(pid: Pid)

  datatype Attempt = First | Second

  datatype Stage =
    | Opening                                // flock not yet attempted
    | Locked                                 // lock held, EXIT trap not set
    | Armed                                  // EXIT trap set
    | LeafFound                              // cgroup_leaf names a leaf that existed
    | LeafEmpty                              // ... whose populated flag read 0
    | LeafRemoved                            // ... and which was removed
    | LeafAbsent                             // no leaf, cgroup_leaf empty
    | LeafMade                               // mkdir done, cgroup_leaf still empty
    | Launching(kind: Kind, launch: Launch)
    | Supervising
    | AwaitingSandbox
    | SandboxReaped
    | Scanning(attempt: Attempt, stopped: nat)
    | Quiesced
    | Exiting
    | Held                                   // fail_closed_hold
    | Exited                                 // through cleanup
    | Refused                                // before the EXIT trap was set
    | Killed
  {
    predicate Alive() { !Exited? && !Refused? && !Killed? }
    predicate OwnsLock() { Alive() && !Opening? }
    /** The runner established that the leaf holds no process of anybody. */
    predicate LeafIsClear() { LeafEmpty? || LeafRemoved? || LeafAbsent? || LeafMade? }
    /** The runner made the leaf and may put its own children there. */
    predicate Populates() { Launching? || Supervising? || AwaitingSandbox? || SandboxReaped? }
    predicate Early() { Opening? || Locked? || Armed? || LeafFound? || LeafIsClear() }
    predicate Trapped() { Armed? || LeafFound? || LeafIsClear() || Populates() }
    predicate Cleaned() { Quiesced? || Exiting? || Exited? }
  }

  datatype Runner = Runner(stage: Stage, leafSet: bool, known: map<Kind, Pid>)

  datatype World = World(runners: map<RunnerId, Runner>, procs: map<Pid, Process>, leaf: bool)

  datatype Step =
    | Start(r: RunnerId)
    | Acquire(r: RunnerId)
    | FailEarly(r: RunnerId)
    | Arm(r: RunnerId)
    | FindLeaf(r: RunnerId)
    | FindNoLeaf(r: RunnerId)
    | CheckLeafEmpty(r: RunnerId)
    | RemoveLeaf(r: RunnerId)
    | ClearLeafVariable(r: RunnerId)
    | MakeLeaf(r: RunnerId)
    | SetLeafVariable(r: RunnerId)
    | Fork(r: RunnerId, pid: Pid)
    | Record(r: RunnerId)
    | Place(r: RunnerId)
    | Verify(r: RunnerId)
    | Signal(r: RunnerId)
    | StopSupervising(r: RunnerId)
    | ReapSandbox(r: RunnerId)
    | BeginCleanup(r: RunnerId)
    | SeeChildStopped(r: RunnerId)
    | SeeLeafEmpty(r: RunnerId)
    | ScanAgain(r: RunnerId)
    | GiveUp(r: RunnerId)
    | FinishCleanup(r: RunnerId, removed: bool)
    | HoldAfterAll(r: RunnerId)
    | Exit(r: RunnerId)
    | KillRunner(r: RunnerId)
    | CloseLock(pid: Pid)
    | PassGate(pid: Pid)
    | ForkChild(pid: Pid, child: Pid)
    | Die(pid: Pid)
  {
    predicate ByRunner() {
      !Start? && !CloseLock? && !PassGate? && !ForkChild? && !Die?
    }
    predicate ByProcess() { CloseLock? || PassGate? || ForkChild? || Die? }
  }

  const ScanOrder: seq<Kind> := [Monitor, Watcher, Sandbox, Slirp]

  function AfterSignal(k: Kind): Stage {
    match k
    case Monitor => Launching(Watcher, ToFork)
    case Watcher => Launching(Sandbox, ToFork)
    case Sandbox => Launching(Slirp, ToFork)
    case _ => Supervising
  }

  ghost predicate LockFree(w: World) {
    && (forall r | r in w.runners :: !w.runners[r].stage.OwnsLock())
    && (forall p | p in w.procs :: !(w.procs[p].alive && w.procs[p].holdsLock))
  }

  ghost predicate Running(w: World, p: Pid) {
    p in w.procs && w.procs[p].alive
  }

  ghost predicate KnownStopped(w: World, r: RunnerId, k: Kind)
    requires r in w.runners
  {
    k in w.runners[r].known ==> !Running(w, w.runners[r].known[k])
  }

  ghost predicate RunnerEnabled(w: World, step: Step)
    requires step.ByRunner()
  {
    step.r in w.runners &&
    var runner := w.runners[step.r];
    var stage := runner.stage;
    match step
    case Acquire(_) => stage.Opening? && LockFree(w)
    case FailEarly(_) => stage.Opening? || stage.Locked?
    case Arm(_) => stage.Locked?
    case FindLeaf(_) => stage.Armed? && w.leaf
    case FindNoLeaf(_) => stage.Armed? && !w.leaf
    case CheckLeafEmpty(_) => stage.LeafFound? && LeafClear(w.procs)
    // rmdir refuses a populated cgroup.
    case RemoveLeaf(_) => stage.LeafEmpty? && w.leaf && LeafClear(w.procs)
    case ClearLeafVariable(_) => stage.LeafRemoved?
    case MakeLeaf(_) => stage.LeafAbsent? && !w.leaf
    case SetLeafVariable(_) => stage.LeafMade?
    case Fork(_, pid) => stage.Launching? && stage.launch.ToFork? && pid !in w.procs
    case Record(_) => stage.Launching? && stage.launch.ToRecord?
    case Place(_) => stage.Launching? && stage.launch.ToPlace? && w.leaf && Running(w, stage.launch.pid)
    case Verify(_) => stage.Launching? && stage.launch.ToVerify? && Running(w, stage.launch.pid)
                      && w.procs[stage.launch.pid].inLeaf
    // Opening a FIFO for writing waits for its reader.
    case Signal(_) => stage.Launching? && stage.launch.ToSignal? && Running(w, stage.launch.pid)
    case StopSupervising(_) => stage.Supervising?
    case ReapSandbox(_) => stage.AwaitingSandbox? && KnownStopped(w, step.r, Sandbox)
    case BeginCleanup(_) => stage.Trapped()
    case SeeChildStopped(_) => stage.Scanning? && stage.stopped < 4 && KnownStopped(w, step.r, ScanOrder[stage.stopped])
    case SeeLeafEmpty(_) => stage.Scanning? && stage.stopped == 4 && (runner.leafSet ==> w.leaf && LeafClear(w.procs))
    case ScanAgain(_) => stage.Scanning?
    case GiveUp(_) => stage.Scanning?
    case FinishCleanup(_, removed) =>
      stage.Quiesced? && (runner.leafSet && w.leaf ==> LeafClear(w.procs)) && (removed ==> runner.leafSet && w.leaf)
    case HoldAfterAll(_) => stage.Quiesced? && runner.leafSet && w.leaf && !LeafClear(w.procs)
    case Exit(_) => stage.Exiting?
    case KillRunner(_) => stage.Alive()
  }

  ghost predicate ProcessEnabled(w: World, step: Step)
    requires step.ByProcess()
  {
    Running(w, step.pid) &&
    var p := w.procs[step.pid];
    match step
    // The sandbox launcher keeps the descriptor until it is past its gate.
    case CloseLock(_) => p.kind == Sandbox ==> p.gate.Passed?
    case PassGate(_) => p.gate.Signalled?
    case ForkChild(_, child) => p.gate.Passed? && child !in w.procs
    case Die(_) => true
  }

  ghost predicate Enabled(w: World, step: Step) {
    if step.Start? then step.r !in w.runners
    else if step.ByRunner() then RunnerEnabled(w, step)
    else ProcessEnabled(w, step)
  }

  /** The shell variables after a runner's step. */
  function NextRunner(runner: Runner, step: Step): Runner
    requires step.ByRunner()
    requires step.Record? || step.Verify? || step.Place? ==>
      runner.stage.Launching? && !runner.stage.launch.ToFork?
    requires step.Fork? || step.Signal? ==> runner.stage.Launching?
    requires step.SeeChildStopped? || step.ScanAgain? || step.GiveUp? ==> runner.stage.Scanning?
  {
    var stage := runner.stage;
    match step
    case Acquire(_) => runner.(stage := Locked)
    case FailEarly(_) => runner.(stage := Refused)
    case Arm(_) => runner.(stage := Armed)
    case FindLeaf(_) => runner.(stage := LeafFound, leafSet := true)
    case FindNoLeaf(_) => runner.(stage := LeafAbsent)
    case CheckLeafEmpty(_) => runner.(stage := LeafEmpty)
    case RemoveLeaf(_) => runner.(stage := LeafRemoved)
    case ClearLeafVariable(_) => runner.(stage := LeafAbsent, leafSet := false)
    case MakeLeaf(_) => runner.(stage := LeafMade)
    case SetLeafVariable(_) => runner.(stage := Launching(Monitor, ToFork), leafSet := true)
    case Fork(_, pid) => runner.(stage := Launching(stage.kind, ToRecord(pid)))
    case Record(_) => runner.(stage := Launching(stage.kind, ToPlace(stage.launch.pid)),
                              known := runner.known[stage.kind := stage.launch.pid])
    case Place(_) => runner.(stage := Launching(stage.kind, ToVerify(stage.launch.pid)))
    case Verify(_) => runner.(stage := Launching(stage.kind, ToSignal(stage.launch.pid)))
    case Signal(_) => runner.(stage := AfterSignal(stage.kind))
    case StopSupervising(_) => runner.(stage := AwaitingSandbox)
    case ReapSandbox(_) => runner.(stage := SandboxReaped, known := runner.known - {Sandbox})
    case BeginCleanup(_) => runner.(stage := Scanning(First, 0))
    case SeeChildStopped(_) => runner.(stage := Scanning(stage.attempt, stage.stopped + 1))
    case SeeLeafEmpty(_) => runner.(stage := Quiesced)
    case ScanAgain(_) => runner.(stage := Scanning(stage.attempt, 0))
    case GiveUp(_) => runner.(stage := if stage.attempt.First? then Scanning(Second, 0) else Held)
    case FinishCleanup(_, _) => runner.(stage := Exiting)
    case HoldAfterAll(_) => runner.(stage := Held)
    case Exit(_) => runner.(stage := Exited)
    case KillRunner(_) => runner.(stage := Killed)
  }

  function NextLeaf(leaf: bool, step: Step): bool {
    match step
    case RemoveLeaf(_) => false
    case MakeLeaf(_) => true
    case FinishCleanup(_, removed) => leaf && !removed
    case _ => leaf
  }

  function NextProcs(procs: map<Pid, Process>, stage: Stage, step: Step): map<Pid, Process>
    requires step.Fork? || step.Place? || step.Signal? ==> stage.Launching?
    requires step.Place? || step.Signal? ==> !stage.launch.ToFork? && stage.launch.pid in procs
    requires step.ByProcess() ==> step.pid in procs
  {
    match step
    case Fork(r, pid) => procs[pid := Process(r, stage.kind, Waiting, true, false, true)]
    case Place(_) => procs[stage.launch.pid := procs[stage.launch.pid].(inLeaf := true)]
    case Signal(_) => procs[stage.launch.pid := procs[stage.launch.pid].(gate := Signalled)]
    case CloseLock(p) => procs[p := procs[p].(holdsLock := false)]
    case PassGate(p) => procs[p := procs[p].(gate := Passed)]
    case ForkChild(p, child) => procs[child := procs[p].(kind := Descendant)]
    case Die(p) => procs[p := procs[p].(alive := false)]
    case _ => procs
  }

  ghost function Apply(w: World, step: Step): World
    requires Enabled(w, step)
  {
    if step.Start? then w.(runners := w.runners[step.r := Runner(Opening, false, map[])])
    else if step.ByProcess() then w.(procs := NextProcs(w.procs, Opening, step))
    else
      var runner := w.runners[step.r];
      World(w.runners[step.r := NextRunner(runner, step)],
            NextProcs(w.procs, runner.stage, step),
            NextLeaf(w.leaf, step))
  }

  ghost predicate IsRun(w: World, steps: seq<Step>)
    decreases |steps|
  {
    steps == [] || (Enabled(w, steps[0]) && IsRun(Apply(w, steps[0]), steps[1..]))
  }

  ghost function Final(w: World, steps: seq<Step>): World
    requires IsRun(w, steps)
    decreases |steps|
  {
    if steps == [] then w else Final(Apply(w, steps[0]), steps[1..])
  }

  const Nothing: World := World(map[], map[], false)

  // ----- Invariants -----

  type Processes = map<Pid, Process>

  ghost predicate Live(procs: Processes, p: Pid) {
    p in procs && procs[p].alive
  }

  ghost predicate LiveInLeaf(procs: Processes, p: Pid) {
    Live(procs, p) && procs[p].inLeaf
  }

  /** flock: at most one live runner is past the lock. */
  ghost predicate OneOwner(w: World) {
    forall r, q | r in w.runners && q in w.runners ::
      w.runners[r].stage.OwnsLock() && w.runners[q].stage.OwnsLock() ==> r == q
  }

  /** Nobody gets past a gate without having been put into the leaf first. */
  ghost predicate Gated(procs: Processes) {
    forall p | Live(procs, p) :: procs[p].gate != Waiting ==> procs[p].inLeaf
  }

  /** All live processes in the leaf have one owner. */
  ghost predicate OneGeneration(procs: Processes) {
    forall p, q | LiveInLeaf(procs, p) && LiveInLeaf(procs, q) :: procs[p].owner == procs[q].owner
  }

  ghost predicate LeafClear(procs: Processes) {
    forall p :: !LiveInLeaf(procs, p)
  }

  ghost predicate LeafHeldBy(procs: Processes, r: RunnerId) {
    forall p | LiveInLeaf(procs, p) :: procs[p].owner == r
  }

  ghost predicate Childless(procs: Processes, r: RunnerId) {
    forall p | p in procs :: procs[p].owner != r
  }

  /** No live child of r is past its gate, or ever in the leaf. */
  ghost predicate AllAtGate(procs: Processes, r: RunnerId) {
    forall p | Live(procs, p) && procs[p].owner == r :: procs[p].gate == Waiting && !procs[p].inLeaf
  }

  ghost predicate ChildInHand(procs: Processes, r: RunnerId, stage: Stage) {
    stage.Launching? && !stage.launch.ToFork? ==>
      && stage.launch.pid in procs
      && procs[stage.launch.pid].owner == r
      && (stage.launch.ToSignal? ==> procs[stage.launch.pid].inLeaf)
  }

  ghost predicate Stopped(procs: Processes, runner: Runner, k: Kind) {
    k in runner.known ==> !Live(procs, runner.known[k])
  }

  /** The children that the cleanup scan has passed are stopped. */
  ghost predicate Scanned(procs: Processes, runner: Runner) {
    var seen := if runner.stage.Scanning? then runner.stage.stopped else if runner.stage.Cleaned() then 4 else 0;
    && seen <= 4
    && (forall i | 0 <= i < seen :: Stopped(procs, runner, ScanOrder[i]))
    && (forall k | k in runner.known :: runner.known[k] in procs && k != Descendant)
  }

  /** What a runner's stage says about the processes. */
  ghost predicate RunnerOk(procs: Processes, r: RunnerId, runner: Runner) {
    var stage := runner.stage;
    && (stage.LeafIsClear() ==> LeafClear(procs))
    && (stage.Populates() ==> runner.leafSet && LeafHeldBy(procs, r))
    && (stage.Early() || !runner.leafSet ==> Childless(procs, r))
    && ChildInHand(procs, r, stage)
    && (stage.Launching? ==> stage.kind != Descendant)
    && Scanned(procs, runner)
    && (stage.Cleaned() ==> AllAtGate(procs, r))
    && (stage.Quiesced? || stage.Exiting? ==> runner.leafSet ==> LeafClear(procs))
  }

  ghost predicate Inv(w: World) {
    && OneOwner(w)
    && Gated(w.procs) && OneGeneration(w.procs)
    && (!w.leaf ==> LeafClear(w.procs))
    && (forall p | p in w.procs :: w.procs[p].owner in w.runners)
    && (forall r | r in w.runners :: RunnerOk(w.procs, r, w.runners[r]))
  }

  // ----- One party moves at a time -----

  /** A step that changes one runner's record and perhaps the leaf. */
  lemma RunnerMoves(w: World, t: World, r: RunnerId)
    requires Inv(w)
    requires r in t.runners && t == w.(runners := w.runners[r := t.runners[r]], leaf := t.leaf)
    requires t.runners[r].stage.OwnsLock() ==> forall q | q in w.runners && q != r :: !w.runners[q].stage.OwnsLock()
    requires !t.leaf ==> LeafClear(w.procs)
    requires RunnerOk(w.procs, r, t.runners[r])
    ensures Inv(t)
  {
  }

  lemma SoleOwner(w: World, r: RunnerId)
    requires Inv(w) && r in w.runners && w.runners[r].stage.OwnsLock()
    ensures forall q | q in w.runners && q != r :: !w.runners[q].stage.OwnsLock()
  {
  }

  /** Steps of processes: closing a descriptor, reading the gate, dying, and
      forking a child that is past its gate like its parent. */
  ghost predicate Tame(before: Processes, after: Processes) {
    && (forall p | p in before ::
          && p in after && after[p].owner == before[p].owner && after[p].inLeaf == before[p].inLeaf
          && (after[p].alive ==> before[p].alive)
          && (after[p].gate == before[p].gate || before[p].gate == Signalled))
    && (forall c | c in after && c !in before ::
          exists p :: Live(before, p) && before[p].gate.Passed?
                      && after[c].owner == before[p].owner && after[c].inLeaf == before[p].inLeaf)
  }

  lemma TameKeepsRunnerOk(before: Processes, after: Processes, r: RunnerId, runner: Runner)
    requires Gated(before) && Tame(before, after) && RunnerOk(before, r, runner)
    ensures RunnerOk(after, r, runner)
  {
    forall p | LiveInLeaf(after, p)
      ensures !LeafClear(before) && (LeafHeldBy(before, r) ==> after[p].owner == r)
    {
      var a := Ancestor(before, after, p);
    }
    assert LeafHeldBy(before, r) ==> LeafHeldBy(after, r);
    assert Childless(before, r) ==> Childless(after, r);
    assert AllAtGate(before, r) ==> AllAtGate(after, r);
    assert Scanned(after, runner);
  }

  lemma TameKeepsInv(w: World, t: World)
    requires Inv(w) && t == w.(procs := t.procs) && Tame(w.procs, t.procs)
    requires Gated(t.procs)
    ensures Inv(t)
  {
    forall r | r in w.runners ensures RunnerOk(t.procs, r, w.runners[r]) {
      TameKeepsRunnerOk(w.procs, t.procs, r, w.runners[r]);
    }
    forall p, q | LiveInLeaf(t.procs, p) && LiveInLeaf(t.procs, q) ensures t.procs[p].owner == t.procs[q].owner {
      var p' := Ancestor(w.procs, t.procs, p);
      var q' := Ancestor(w.procs, t.procs, q);
    }
    if LeafClear(w.procs) && !LeafClear(t.procs) {
      var p :| LiveInLeaf(t.procs, p);
      var a := Ancestor(w.procs, t.procs, p);
    }
  }

  lemma Ancestor(before: Processes, after: Processes, p: Pid) returns (a: Pid)
    requires Gated(before) && Tame(before, after) && LiveInLeaf(after, p)
    ensures LiveInLeaf(before, a) && before[a].owner == after[p].owner
  {
    if p in before { a := p; } else {
      a :| Live(before, a) && before[a].gate.Passed?
           && after[p].owner == before[a].owner && after[p].inLeaf == before[a].inLeaf;
    }
  }

  /** The lock owner changes one of its own children: nobody else can tell. */
  lemma OwnerKeepsOthers(before: Processes, after: Processes, r: RunnerId, q: RunnerId, runner: Runner)
    requires q != r && !runner.stage.OwnsLock() && RunnerOk(before, q, runner)
    requires forall p | p in before ::
      && p in after
      && (after[p] == before[p] || (before[p].owner == after[p].owner == r && after[p].alive == before[p].alive))
    requires forall p | p in after && p !in before :: after[p].owner == r
    ensures RunnerOk(after, q, runner)
  {
    assert Childless(before, q) ==> Childless(after, q);
    assert AllAtGate(before, q) ==> AllAtGate(after, q);
    assert Scanned(after, runner);
  }

  lemma OwnerActs(w: World, t: World, r: RunnerId)
    requires Inv(w) && r in w.runners && r in t.runners && w.runners[r].stage.OwnsLock()
    requires t == World(w.runners[r := t.runners[r]], t.procs, w.leaf)
    requires forall p | p in w.procs ::
      && p in t.procs
      && (|| t.procs[p] == w.procs[p]
          || (w.procs[p].owner == t.procs[p].owner == r && t.procs[p].alive == w.procs[p].alive))
    requires forall p | p in t.procs && p !in w.procs :: t.procs[p].owner == r
    requires Gated(t.procs) && LeafHeldBy(t.procs, r) && (t.leaf || LeafClear(t.procs))
    requires RunnerOk(t.procs, r, t.runners[r])
    ensures Inv(t)
  {
    hide RunnerOk, Gated;
    SoleOwner(w, r);
    forall q | q in w.runners && q != r ensures RunnerOk(t.procs, q, t.runners[q]) {
      OwnerKeepsOthers(w.procs, t.procs, r, q, w.runners[q]);
    }
  }

  lemma ForkedChildIsOk(procs: Processes, after: Processes, r: RunnerId, runner: Runner, pid: Pid)
    requires RunnerOk(procs, r, runner) && runner.stage.Launching? && pid !in procs
    requires after == procs[pid := Process(r, runner.stage.kind, Waiting, true, false, true)]
    ensures RunnerOk(after, r, runner.(stage := Launching(runner.stage.kind, ToRecord(pid))))
    ensures LeafHeldBy(after, r) && (LeafClear(procs) ==> LeafClear(after)) && (Gated(procs) ==> Gated(after))
  {
    forall p ensures LiveInLeaf(after, p) ==> LiveInLeaf(procs, p) && after[p] == procs[p] {}
  }

  lemma ForkKeepsInv(w: World, step: Step)
    requires Inv(w) && Enabled(w, step) && step.Fork?
    ensures Inv(Apply(w, step))
  {
    ForkedChildIsOk(w.procs, Apply(w, step).procs, step.r, w.runners[step.r], step.pid);
    OwnerActs(w, Apply(w, step), step.r);
  }

  lemma PlacedChildIsOk(procs: Processes, r: RunnerId, runner: Runner)
    requires RunnerOk(procs, r, runner) && runner.stage.Launching? && runner.stage.launch.ToPlace?
    ensures var pid := runner.stage.launch.pid;
            && pid in procs && procs[pid].owner == r
            && var after := procs[pid := procs[pid].(inLeaf := true)];
            && RunnerOk(after, r, runner.(stage := Launching(runner.stage.kind, ToVerify(pid))))
            && LeafHeldBy(after, r) && (Gated(procs) ==> Gated(after))
  {
  }

  lemma SignalledChildIsOk(procs: Processes, r: RunnerId, runner: Runner)
    requires RunnerOk(procs, r, runner) && runner.stage.Launching? && runner.stage.launch.ToSignal?
    ensures var pid := runner.stage.launch.pid;
            && pid in procs && procs[pid].owner == r
            && var after := procs[pid := procs[pid].(gate := Signalled)];
            && RunnerOk(after, r, runner.(stage := AfterSignal(runner.stage.kind)))
            && LeafHeldBy(after, r) && (Gated(procs) ==> Gated(after))
            && (LeafClear(procs) ==> LeafClear(after))
  {
    var pid := runner.stage.launch.pid;
    var after := procs[pid := procs[pid].(gate := Signalled)];
    forall p ensures LiveInLeaf(after, p) ==> LiveInLeaf(procs, p) {}
  }

  lemma PlaceKeepsInv(w: World, step: Step)
    requires Inv(w) && Enabled(w, step) && step.Place?
    ensures Inv(Apply(w, step))
  {
    hide RunnerOk, Gated, LockFree, KnownStopped, LeafHeldBy, LeafClear, OneGeneration;
    var runner := w.runners[step.r];
    assert RunnerOk(w.procs, step.r, runner);
    PlacedChildIsOk(w.procs, step.r, runner);
    OwnerActs(w, Apply(w, step), step.r);
  }

  lemma SignalKeepsInv(w: World, step: Step)
    requires Inv(w) && Enabled(w, step) && step.Signal?
    ensures Inv(Apply(w, step))
  {
    hide RunnerOk, Gated, LockFree, KnownStopped, LeafHeldBy, LeafClear, OneGeneration;
    var runner := w.runners[step.r];
    assert RunnerOk(w.procs, step.r, runner);
    SignalledChildIsOk(w.procs, step.r, runner);
    OwnerActs(w, Apply(w, step), step.r);
  }

  lemma ProcessesStayTame(procs: Processes, step: Step)
    requires step.ByProcess() && Live(procs, step.pid) && Gated(procs)
    requires step.PassGate? ==> procs[step.pid].gate.Signalled?
    requires step.ForkChild? ==> procs[step.pid].gate.Passed? && step.child !in procs
    ensures Tame(procs, NextProcs(procs, Opening, step)) && Gated(NextProcs(procs, Opening, step))
  {
  }

  lemma ProcessStepKeepsInv(w: World, step: Step)
    requires Inv(w) && Enabled(w, step) && step.ByProcess()
    ensures Inv(Apply(w, step))
  {
    ProcessesStayTame(w.procs, step);
    TameKeepsInv(w, Apply(w, step));
  }

  /** The parts of a step's guard that speak of the moving runner alone. */
  ghost predicate LocallyEnabled(procs: Processes, runner: Runner, step: Step)
    requires step.ByRunner()
  {
    var stage := runner.stage;
    match step
    case CheckLeafEmpty(_) => stage.LeafFound? && LeafClear(procs)
    case RemoveLeaf(_) => stage.LeafEmpty? && LeafClear(procs)
    case FindNoLeaf(_) => stage.Armed? && LeafClear(procs)
    case ReapSandbox(_) => stage.AwaitingSandbox? && Stopped(procs, runner, Sandbox)
    case SeeChildStopped(_) => stage.Scanning? && stage.stopped < 4 && Stopped(procs, runner, ScanOrder[stage.stopped])
    case SeeLeafEmpty(_) => stage.Scanning? && stage.stopped == 4 && (runner.leafSet ==> LeafClear(procs))
    case FinishCleanup(_, _) => stage.Quiesced?
    case HoldAfterAll(_) => stage.Quiesced?
    case Acquire(_) => stage.Opening?
    case FailEarly(_) => stage.Opening? || stage.Locked?
    case Arm(_) => stage.Locked?
    case FindLeaf(_) => stage.Armed?
    case ClearLeafVariable(_) => stage.LeafRemoved?
    case MakeLeaf(_) => stage.LeafAbsent?
    case SetLeafVariable(_) => stage.LeafMade?
    case Record(_) => stage.Launching? && stage.launch.ToRecord? && stage.kind != Descendant
    case Verify(_) => stage.Launching? && stage.launch.ToVerify? && LiveInLeaf(procs, stage.launch.pid)
    case StopSupervising(_) => stage.Supervising?
    case BeginCleanup(_) => stage.Trapped()
    case ScanAgain(_) => stage.Scanning?
    case GiveUp(_) => stage.Scanning?
    case Exit(_) => stage.Exiting?
    case KillRunner(_) => stage.Alive()
    case _ => false
  }

  lemma RecordStaysOk(procs: Processes, r: RunnerId, runner: Runner, step: Step)
    requires RunnerOk(procs, r, runner) && step.ByRunner() && LocallyEnabled(procs, runner, step)
    requires step.Record? || step.ReapSandbox? || step.Verify? || step.StopSupervising?
    ensures RunnerOk(procs, r, NextRunner(runner, step))
  {
  }

  lemma ScanStaysOk(procs: Processes, r: RunnerId, runner: Runner, step: Step)
    requires RunnerOk(procs, r, runner) && step.ByRunner() && LocallyEnabled(procs, runner, step)
    requires step.BeginCleanup? || step.SeeChildStopped? || step.ScanAgain? || step.GiveUp?
    ensures RunnerOk(procs, r, NextRunner(runner, step))
  {
    hide LeafHeldBy, Childless, LeafClear, AllAtGate;
  }

  lemma CleanupStaysOk(procs: Processes, r: RunnerId, runner: Runner, step: Step)
    requires Gated(procs)
    requires RunnerOk(procs, r, runner) && step.ByRunner() && LocallyEnabled(procs, runner, step)
    requires step.SeeLeafEmpty? || step.FinishCleanup? || step.HoldAfterAll? || step.Exit? || step.KillRunner?
    ensures RunnerOk(procs, r, NextRunner(runner, step))
  {
    hide LeafHeldBy;
    forall p | Live(procs, p) && LeafClear(procs) ensures procs[p].gate == Waiting && !procs[p].inLeaf {
      assert !LiveInLeaf(procs, p);
    }
  }

  lemma EarlyStaysOk(procs: Processes, r: RunnerId, runner: Runner, step: Step)
    requires RunnerOk(procs, r, runner) && step.ByRunner() && LocallyEnabled(procs, runner, step)
    requires step.Acquire? || step.FailEarly? || step.Arm? || step.FindLeaf? || step.FindNoLeaf?
          || step.CheckLeafEmpty? || step.RemoveLeaf? || step.ClearLeafVariable? || step.MakeLeaf?
          || step.SetLeafVariable?
    ensures RunnerOk(procs, r, NextRunner(runner, step))
  {
  }

  lemma RunnerStaysOk(procs: Processes, r: RunnerId, runner: Runner, step: Step)
    requires Gated(procs)
    requires RunnerOk(procs, r, runner) && step.ByRunner() && LocallyEnabled(procs, runner, step)
    ensures RunnerOk(procs, r, NextRunner(runner, step))
  {
    if step.Record? || step.ReapSandbox? || step.Verify? || step.StopSupervising? {
      RecordStaysOk(procs, r, runner, step);
    } else if step.BeginCleanup? || step.SeeChildStopped? || step.ScanAgain? || step.GiveUp? {
      ScanStaysOk(procs, r, runner, step);
    } else if step.SeeLeafEmpty? || step.FinishCleanup? || step.HoldAfterAll? || step.Exit? || step.KillRunner? {
      CleanupStaysOk(procs, r, runner, step);
    } else {
      EarlyStaysOk(procs, r, runner, step);
    }
  }

  lemma EnabledIsLocal(w: World, step: Step)
    requires Inv(w) && step.ByRunner() && RunnerEnabled(w, step)
    requires !step.Fork? && !step.Place? && !step.Signal?
    ensures LocallyEnabled(w.procs, w.runners[step.r], step)
  {
    assert RunnerOk(w.procs, step.r, w.runners[step.r]);
  }

  lemma StepKeepsOwnership(w: World, step: Step)
    requires Inv(w) && step.ByRunner() && RunnerEnabled(w, step)
    requires !step.Fork? && !step.Place? && !step.Signal?
    ensures NextRunner(w.runners[step.r], step).stage.OwnsLock() ==>
      forall q | q in w.runners && q != step.r :: !w.runners[q].stage.OwnsLock()
    ensures !NextLeaf(w.leaf, step) ==> LeafClear(w.procs)
  {
    hide RunnerOk, Gated, OneGeneration, LeafClear, KnownStopped;
    if w.runners[step.r].stage.OwnsLock() { SoleOwner(w, step.r); }
  }

  lemma RunnerStepKeepsInv(w: World, step: Step)
    requires Inv(w) && Enabled(w, step) && step.ByRunner()
    requires !step.Fork? && !step.Place? && !step.Signal?
    ensures Inv(Apply(w, step))
  {
    EnabledIsLocal(w, step);
    StepKeepsOwnership(w, step);
    hide LocallyEnabled, RunnerOk, RunnerEnabled, Gated, NextRunner, NextLeaf;
    RunnerStaysOk(w.procs, step.r, w.runners[step.r], step);
    RunnerMoves(w, Apply(w, step), step.r);
  }

  lemma StartKeepsInv(w: World, step: Step)
    requires Inv(w) && Enabled(w, step) && step.Start?
    ensures Inv(Apply(w, step))
  {
    RunnerMoves(w, Apply(w, step), step.r);
  }

  lemma StepKeepsInv(w: World, step: Step)
    requires Inv(w) && Enabled(w, step)
    ensures Inv(Apply(w, step))
  {
    if step.Start? { StartKeepsInv(w, step); }
    else if step.ByProcess() { ProcessStepKeepsInv(w, step); }
    else if step.Fork? { ForkKeepsInv(w, step); }
    else if step.Place? { PlaceKeepsInv(w, step); }
    else if step.Signal? { SignalKeepsInv(w, step); }
    else { RunnerStepKeepsInv(w, step); }
  }

  lemma {:induction false} RunKeepsInv(w: World, steps: seq<Step>)
    requires Inv(w) && IsRun(w, steps)
    ensures Inv(Final(w, steps))
    decreases |steps|
  {
    if steps != [] {
      StepKeepsInv(w, steps[0]);
      RunKeepsInv(Apply(w, steps[0]), steps[1..]);
    }
  }

  // ----- One generation at a time -----

  /** Under any interleaving of runners, children and abrupt kills, the live
      processes that were released past a start gate belong to one runner. */
  lemma OneGenerationPerTenant(steps: seq<Step>, p: Pid, q: Pid)
    requires IsRun(Nothing, steps)
    ensures var procs := Final(Nothing, steps).procs;
            && Live(procs, p) && procs[p].gate != Waiting
            && Live(procs, q) && procs[q].gate != Waiting
            ==> procs[p].owner == procs[q].owner
  {
    RunKeepsInv(Nothing, steps);
    var procs := Final(Nothing, steps).procs;
    if Live(procs, p) && procs[p].gate != Waiting && Live(procs, q) && procs[q].gate != Waiting {
      assert LiveInLeaf(procs, p) && LiveInLeaf(procs, q);
    }
  }

  /** A runner that starts children has outlived every process released by the
      runners before it. */
  lemma LaunchingMeansPredecessorsAreGone(steps: seq<Step>, r: RunnerId, p: Pid)
    requires IsRun(Nothing, steps)
    ensures var w := Final(Nothing, steps);
            r in w.runners && w.runners[r].stage.Populates() && Live(w.procs, p) && w.procs[p].gate != Waiting
            ==> w.procs[p].owner == r
  {
    RunKeepsInv(Nothing, steps);
    var w := Final(Nothing, steps);
    if r in w.runners && w.runners[r].stage.Populates() && Live(w.procs, p) && w.procs[p].gate != Waiting {
      assert LiveInLeaf(w.procs, p);
    }
  }

  // ----- What an exit through cleanup leaves behind -----

  /** At its exit a runner has stopped every child it knows; none of its
      processes was released past a gate and still lives; and the leaf it
      set is unpopulated. */
  lemma CleanExitLeavesNothingRunning(steps: seq<Step>, r: RunnerId)
    requires IsRun(Nothing, steps)
    ensures var w := Final(Nothing, steps);
            r in w.runners && w.runners[r].stage.Exiting? ==>
              && (forall k | k in w.runners[r].known :: !Live(w.procs, w.runners[r].known[k]))
              && AllAtGate(w.procs, r)
              && (w.runners[r].leafSet ==> LeafClear(w.procs))
              && (!w.runners[r].leafSet ==> Childless(w.procs, r))
  {
    RunKeepsInv(Nothing, steps);
    var w := Final(Nothing, steps);
    if r in w.runners && w.runners[r].stage.Exiting? {
      assert RunnerOk(w.procs, r, w.runners[r]);
      forall k | k in w.runners[r].known ensures !Live(w.procs, w.runners[r].known[k]) {
        assert Stopped(w.procs, w.runners[r], ScanOrder[0]) && Stopped(w.procs, w.runners[r], ScanOrder[1]);
        assert Stopped(w.procs, w.runners[r], ScanOrder[2]) && Stopped(w.procs, w.runners[r], ScanOrder[3]);
      }
    }
  }

  /** And that is final: no process of a runner that has exited through cleanup
      is ever past its gate again. */
  lemma CleanExitIsFinal(steps: seq<Step>, r: RunnerId)
    requires IsRun(Nothing, steps)
    ensures var w := Final(Nothing, steps);
            r in w.runners && w.runners[r].stage.Exited? ==> AllAtGate(w.procs, r)
  {
    RunKeepsInv(Nothing, steps);
  }

  ghost predicate RefusedAreChildless(w: World) {
    forall r | r in w.runners :: w.runners[r].stage.Refused? ==> Childless(w.procs, r)
  }

  lemma OnlyFailingEarlyRefuses(runner: Runner, step: Step)
    requires step.ByRunner()
    requires step.Record? || step.Verify? || step.Place? ==>
      runner.stage.Launching? && !runner.stage.launch.ToFork?
    requires step.Fork? || step.Signal? ==> runner.stage.Launching?
    requires step.SeeChildStopped? || step.ScanAgain? || step.GiveUp? ==> runner.stage.Scanning?
    ensures NextRunner(runner, step).stage.Refused? <==> step.FailEarly?
  {
  }

  lemma RefusedWereEarly(w: World, step: Step, r: RunnerId)
    requires Enabled(w, step) && r in Apply(w, step).runners && Apply(w, step).runners[r].stage.Refused?
    ensures r in w.runners && (w.runners[r].stage.Refused? || w.runners[r].stage.Early())
    ensures step.Fork? ==> step.r != r
  {
    hide LockFree, LeafClear, KnownStopped, NextProcs, NextLeaf, NextRunner;
    if step.ByRunner() && step.r == r { OnlyFailingEarlyRefuses(w.runners[r], step); }
  }

  lemma ChildlessStays(w: World, step: Step, r: RunnerId)
    requires Enabled(w, step) && Childless(w.procs, r) && (step.Fork? ==> step.r != r)
    ensures Childless(Apply(w, step).procs, r)
  {
    hide LockFree, LeafClear, KnownStopped, NextRunner, NextLeaf;
  }

  lemma StepKeepsRefusedChildless(w: World, step: Step)
    requires Inv(w) && RefusedAreChildless(w) && Enabled(w, step)
    ensures RefusedAreChildless(Apply(w, step))
  {
    hide Apply, Enabled, OneOwner, Gated, OneGeneration, LeafClear, Childless, Scanned, AllAtGate;
    var t := Apply(w, step);
    forall r | r in t.runners && t.runners[r].stage.Refused? ensures Childless(t.procs, r) {
      RefusedWereEarly(w, step, r);
      assert RunnerOk(w.procs, r, w.runners[r]);
      ChildlessStays(w, step, r);
    }
  }

  lemma {:induction false} RunKeepsRefusedChildless(w: World, steps: seq<Step>)
    requires Inv(w) && RefusedAreChildless(w) && IsRun(w, steps)
    ensures RefusedAreChildless(Final(w, steps))
    decreases |steps|
  {
    if steps != [] {
      StepKeepsInv(w, steps[0]);
      StepKeepsRefusedChildless(w, steps[0]);
      RunKeepsRefusedChildless(Apply(w, steps[0]), steps[1..]);
    }
  }

  /** What such an exit can leave in the leaf: only when the runner never named a
      leaf, and only processes of runners that were killed before they cleaned up. */
  lemma LeftoversBelongToTheKilled(steps: seq<Step>, r: RunnerId, p: Pid)
    requires IsRun(Nothing, steps)
    ensures var w := Final(Nothing, steps);
            r in w.runners && w.runners[r].stage.Exiting? && LiveInLeaf(w.procs, p) ==>
              && !w.runners[r].leafSet
              && w.procs[p].owner in w.runners && w.runners[w.procs[p].owner].stage.Killed?
  {
    RunKeepsInv(Nothing, steps);
    RunKeepsRefusedChildless(Nothing, steps);
    var w := Final(Nothing, steps);
    if r in w.runners && w.runners[r].stage.Exiting? && LiveInLeaf(w.procs, p) {
      var owner := w.procs[p].owner;
      assert RunnerOk(w.procs, r, w.runners[r]) && RunnerOk(w.procs, owner, w.runners[owner]);
      assert !Childless(w.procs, owner);
      assert w.runners[owner].stage.OwnsLock() ==> owner == r;
    }
  }

  /** So the exact condition for leaving an unpopulated leaf: the runner named a
      leaf, or no killed runner has a live process in it. */
  lemma ExitLeavesTheLeafClearIff(steps: seq<Step>, r: RunnerId)
    requires IsRun(Nothing, steps)
    requires var w := Final(Nothing, steps); r in w.runners && w.runners[r].stage.Exiting?
    ensures var w := Final(Nothing, steps);
            LeafClear(w.procs) <==>
              || w.runners[r].leafSet
              || !exists p :: LiveInLeaf(w.procs, p) && w.procs[p].owner in w.runners
                              && w.runners[w.procs[p].owner].stage.Killed?
  {
    CleanExitLeavesNothingRunning(steps, r);
    var w := Final(Nothing, steps);
    forall p | LiveInLeaf(w.procs, p)
      ensures w.procs[p].owner in w.runners && w.runners[w.procs[p].owner].stage.Killed?
    {
      LeftoversBelongToTheKilled(steps, r, p);
    }
  }

  // ----- fail_closed_hold -----

  lemma OnlyAKillEndsTheHold(w: World, step: Step)
    requires step.ByRunner() && RunnerEnabled(w, step) && w.runners[step.r].stage.Held?
    ensures step.KillRunner?
  {
  }

  lemma HeldIsStuck(w: World, step: Step, r: RunnerId)
    requires Enabled(w, step) && r in w.runners && w.runners[r].stage.Held? && step != KillRunner(r)
    ensures r in Apply(w, step).runners && Apply(w, step).runners[r] == w.runners[r]
  {
    if step.ByRunner() && step.r == r { OnlyAKillEndsTheHold(w, step); }
  }

  /** Once a runner holds because cleanup did not quiesce, nothing but killing
      it lets any other runner past the tenant lock. */
  lemma {:induction false} HoldingKeepsOthersOut(w: World, steps: seq<Step>, r: RunnerId, q: RunnerId)
    requires Inv(w) && IsRun(w, steps) && r in w.runners && w.runners[r].stage.Held?
    requires KillRunner(r) !in steps && q != r
    ensures var t := Final(w, steps);
            && r in t.runners && t.runners[r].stage.Held?
            && (q in t.runners ==> !t.runners[q].stage.OwnsLock())
    decreases |steps|
  {
    if steps == [] {
      SoleOwner(w, r);
    } else {
      StepKeepsInv(w, steps[0]);
      HeldIsStuck(w, steps[0], r);
      HoldingKeepsOthersOut(Apply(w, steps[0]), steps[1..], r, q);
    }
  }

  // ----- The leaf condition is needed -----

  lemma {:induction false} Extend(w: World, steps: seq<Step>, last: Step) returns (longer: seq<Step>)
    requires IsRun(w, steps) && Enabled(Final(w, steps), last)
    ensures longer == steps + [last]
    ensures IsRun(w, longer) && Final(w, longer) == Apply(Final(w, steps), last)
    decreases |steps|
  {
    longer := steps + [last];
    if steps == [] {
      assert longer[1..] == [];
    } else {
      var rest := Extend(Apply(w, steps[0]), steps[1..], last);
      assert longer[1..] == rest;
    }
  }

  lemma NoSteps()
    ensures IsRun(Nothing, []) && Final(Nothing, []) == Nothing
  {
  }

  const Orphan: Process := Process(0, Monitor, Passed, false, true, true)

  lemma FirstArmed() returns (steps: seq<Step>)
    ensures IsRun(Nothing, steps)
    ensures Final(Nothing, steps) == World(map[0 := Runner(Armed, false, map[])], map[], false)
  {
    hide IsRun, Final;
    steps := [];
    NoSteps();
    steps := Extend(Nothing, steps, Start(0));
    assert Final(Nothing, steps) == World(map[0 := Runner(Opening, false, map[])], map[], false);
    steps := Extend(Nothing, steps, Acquire(0));
    steps := Extend(Nothing, steps, Arm(0));
  }

  /** The run of a first runner up to its empty leaf. */
  lemma FirstLeaf() returns (steps: seq<Step>)
    ensures IsRun(Nothing, steps)
    ensures Final(Nothing, steps) == World(map[0 := Runner(Launching(Monitor, ToFork), true, map[])], map[], true)
  {
    hide IsRun, Final;
    steps := FirstArmed();
    steps := Extend(Nothing, steps, FindNoLeaf(0));
    steps := Extend(Nothing, steps, MakeLeaf(0));
    assert Final(Nothing, steps) == World(map[0 := Runner(LeafMade, false, map[])], map[], true);
    steps := Extend(Nothing, steps, SetLeafVariable(0));
  }

  function OneChild(launch: Launch, known: map<Kind, Pid>, child: Process): World {
    World(map[0 := Runner(Launching(Monitor, launch), true, known)], map[7 := child], true)
  }

  lemma FirstChild() returns (steps: seq<Step>)
    ensures IsRun(Nothing, steps)
    ensures Final(Nothing, steps)
         == OneChild(ToSignal(7), map[Monitor := 7], Process(0, Monitor, Waiting, true, true, true))
  {
    hide IsRun, Final;
    steps := FirstLeaf();
    steps := Extend(Nothing, steps, Fork(0, 7));
    assert Final(Nothing, steps) == OneChild(ToRecord(7), map[], Process(0, Monitor, Waiting, true, false, true));
    steps := Extend(Nothing, steps, Record(0));
    assert Final(Nothing, steps)
        == OneChild(ToPlace(7), map[Monitor := 7], Process(0, Monitor, Waiting, true, false, true));
    steps := Extend(Nothing, steps, Place(0));
    assert Final(Nothing, steps)
        == OneChild(ToVerify(7), map[Monitor := 7], Process(0, Monitor, Waiting, true, true, true));
    steps := Extend(Nothing, steps, Verify(0));
  }

  /** The first runner is killed while its monitor is past the gate. */
  lemma OrphanedMonitor() returns (steps: seq<Step>)
    ensures IsRun(Nothing, steps) && Alone(Final(Nothing, steps), Runner(Killed, true, map[Monitor := 7]), Orphan)
  {
    hide IsRun, Final;
    steps := FirstChild();
    steps := Extend(Nothing, steps, Signal(0));
    var after := Runner(Launching(Watcher, ToFork), true, map[Monitor := 7]);
    assert Final(Nothing, steps)
        == World(map[0 := after], map[7 := Process(0, Monitor, Signalled, true, true, true)], true);
    steps := ReleasedAndOrphaned(steps, after);
  }

  /** One child and no runner but the first. */
  ghost predicate Alone(w: World, runner: Runner, child: Process) {
    w.leaf && w.runners.Keys == {0} && w.runners[0] == runner && w.procs.Keys == {7} && w.procs[7] == child
  }

  lemma ChildMoves(begun: seq<Step>, runner: Runner, child: Process, step: Step) returns (steps: seq<Step>)
    requires IsRun(Nothing, begun) && Alone(Final(Nothing, begun), runner, child)
    requires child.alive && child.kind == Monitor
    requires step == CloseLock(7) || (step == PassGate(7) && child.gate.Signalled?)
    ensures IsRun(Nothing, steps)
    ensures Alone(Final(Nothing, steps), runner,
                  if step.CloseLock? then child.(holdsLock := false) else child.(gate := Passed))
  {
    hide IsRun, Final;
    steps := Extend(Nothing, begun, step);
  }

  lemma ReleasedAndOrphaned(begun: seq<Step>, runner: Runner) returns (steps: seq<Step>)
    requires IsRun(Nothing, begun) && runner.stage.Launching? && runner.leafSet && runner.known == map[Monitor := 7]
    requires Alone(Final(Nothing, begun), runner, Process(0, Monitor, Signalled, true, true, true))
    ensures IsRun(Nothing, steps) && Alone(Final(Nothing, steps), runner.(stage := Killed), Orphan)
  {
    hide IsRun, Final;
    steps := ChildMoves(begun, runner, Process(0, Monitor, Signalled, true, true, true), CloseLock(7));
    steps := ChildMoves(steps, runner, Process(0, Monitor, Signalled, false, true, true), PassGate(7));
    steps := FirstKilled(steps, runner);
  }

  lemma FirstKilled(begun: seq<Step>, runner: Runner) returns (steps: seq<Step>)
    requires IsRun(Nothing, begun) && Alone(Final(Nothing, begun), runner, Orphan) && runner.stage.Launching?
    ensures IsRun(Nothing, steps) && Alone(Final(Nothing, steps), runner.(stage := Killed), Orphan)
  {
    hide IsRun, Final;
    steps := Extend(Nothing, begun, KillRunner(0));
  }

  /** The world in which a second runner found the lock free. */
  ghost predicate Successor(w: World, stage: Stage) {
    && w.procs.Keys == {7} && w.procs[7] == Orphan && w.runners.Keys == {0, 1}
    && w.runners[0].stage.Killed? && w.runners[1] == Runner(stage, false, map[])
  }

  lemma SuccessorStarts() returns (steps: seq<Step>)
    ensures IsRun(Nothing, steps) && Successor(Final(Nothing, steps), Opening)
  {
    steps := OrphanedMonitor();
    steps := Extend(Nothing, steps, Start(1));
  }

  lemma SuccessorMoves(begun: seq<Step>, from: Stage, step: Step, to: Stage) returns (steps: seq<Step>)
    requires IsRun(Nothing, begun) && Successor(Final(Nothing, begun), from)
    requires || (step == Acquire(1) && from == Opening && to == Locked)
             || (step == Arm(1) && from == Locked && to == Armed)
             || (step == BeginCleanup(1) && from == Armed && to == Scanning(First, 0))
             || (step == SeeChildStopped(1) && from.Scanning? && from.stopped < 4
                 && to == Scanning(from.attempt, from.stopped + 1))
             || (step == SeeLeafEmpty(1) && from == Scanning(First, 4) && to == Quiesced)
             || (step == FinishCleanup(1, false) && from == Quiesced && to == Exiting)
    ensures IsRun(Nothing, steps) && Successor(Final(Nothing, steps), to)
  {
    hide IsRun, Final;
    steps := Extend(Nothing, begun, step);
  }

  /** A runner that fails before it looks at the leaf exits through cleanup and
      leaves its predecessor's leaf populated: cleanup only inspects a leaf that
      the variable names. */
  lemma EarlyFailureLeavesAPopulatedLeaf() returns (steps: seq<Step>)
    ensures IsRun(Nothing, steps)
    ensures var w := Final(Nothing, steps);
            1 in w.runners && w.runners[1].stage.Exiting? && !w.runners[1].leafSet && !LeafClear(w.procs)
  {
    steps := SuccessorStarts();
    steps := SuccessorMoves(steps, Opening, Acquire(1), Locked);
    steps := SuccessorMoves(steps, Locked, Arm(1), Armed);
    steps := SuccessorMoves(steps, Armed, BeginCleanup(1), Scanning(First, 0));
    for i := 0 to 4
      invariant IsRun(Nothing, steps) && Successor(Final(Nothing, steps), Scanning(First, i))
    {
      steps := SuccessorMoves(steps, Scanning(First, i), SeeChildStopped(1), Scanning(First, i + 1));
    }
    steps := SuccessorMoves(steps, Scanning(First, 4), SeeLeafEmpty(1), Quiesced);
    steps := SuccessorMoves(steps, Quiesced, FinishCleanup(1, false), Exiting);
    assert LiveInLeaf(Final(Nothing, steps).procs, 7);
  }
}
