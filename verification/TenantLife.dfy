/** The life of one runner of a tenant: which children it has started by when,
    what its look at the leaf is worth, and when it holds. */
module TenantLife {
  import opened TenantLock

  // ----- The children are started in order -----

  /** Address events are watched before the sandbox runs, and its network comes
      last. */
  function StartOrder(k: Kind): nat {
    match k
    case Monitor => 0
    case Watcher => 1
    case Sandbox => 2
    case Slirp => 3
    case Descendant => 4
  }

  /** The number of children the runner has let past their gates, in order. */
  function Released(stage: Stage): nat {
    match stage
    case Launching(k, _) => StartOrder(k)
    case Supervising => 4
    case AwaitingSandbox => 4
    case _ => 0
  }

  predicate InHand(stage: Stage, k: Kind) {
    stage.Launching? && stage.kind == k && !stage.launch.ToFork? && !stage.launch.ToRecord?
  }

  /** The runner knows the children it let past their gates and the one in hand,
      each by its kind, and no others. */
  ghost predicate Crew(procs: Processes, r: RunnerId, runner: Runner) {
    var stage := runner.stage;
    && (stage.Early() ==> runner.known == map[])
    && (stage.Launching? || stage.Supervising? || stage.AwaitingSandbox? ==>
          forall k :: k in runner.known <==> k != Descendant && (StartOrder(k) < Released(stage) || InHand(stage, k)))
    && (forall k | k in runner.known :: IsChild(procs, runner.known[k], r, k))
    && (forall k | k in runner.known && StartOrder(k) < Released(stage) :: procs[runner.known[k]].gate != Waiting)
    && (stage.Launching? && !stage.launch.ToFork? ==> IsChild(procs, stage.launch.pid, r, stage.kind))
    && (stage.Launching? && (stage.launch.ToPlace? || stage.launch.ToVerify? || stage.launch.ToSignal?) ==>
          stage.kind in runner.known && runner.known[stage.kind] == stage.launch.pid)
    && (stage.Launching? ==> stage.kind != Descendant)
  }

  ghost predicate IsChild(procs: Processes, p: Pid, r: RunnerId, k: Kind) {
    p in procs && procs[p].owner == r && procs[p].kind == k
  }

  ghost predicate Crewed(w: World) {
    forall r | r in w.runners :: Crew(w.procs, r, w.runners[r])
  }

  /** Processes keep their owner and kind, and never go back behind their gates. */
  ghost predicate Onward(before: Processes, after: Processes) {
    forall p | p in before ::
      && p in after && after[p].owner == before[p].owner && after[p].kind == before[p].kind
      && (before[p].gate != Waiting ==> after[p].gate != Waiting)
  }

  lemma OnwardKeepsCrew(before: Processes, after: Processes, r: RunnerId, runner: Runner)
    requires Onward(before, after) && Crew(before, r, runner)
    ensures Crew(after, r, runner)
  {
    forall k | k in runner.known ensures IsChild(after, runner.known[k], r, k) {
      assert IsChild(before, runner.known[k], r, k);
    }
  }

  lemma ProcsGoOnward(procs: Processes, stage: Stage, step: Step)
    requires step.Fork? || step.Place? || step.Signal? ==> stage.Launching?
    requires step.Place? || step.Signal? ==> !stage.launch.ToFork? && stage.launch.pid in procs
    requires step.ByProcess() ==> step.pid in procs
    requires (step.Fork? ==> step.pid !in procs) && (step.ForkChild? ==> step.child !in procs)
    ensures Onward(procs, NextProcs(procs, stage, step))
  {
  }

  lemma StepsGoOnward(w: World, step: Step)
    requires Enabled(w, step)
    ensures Onward(w.procs, Apply(w, step).procs)
  {
    hide LockFree, LeafClear, NextRunner, NextLeaf, NextProcs, Onward;
    if step.ByRunner() {
      ProcsGoOnward(w.procs, w.runners[step.r].stage, step);
    } else if step.ByProcess() {
      ProcsGoOnward(w.procs, Opening, step);
    } else {
      NobodyMoves(w.procs);
    }
  }

  lemma NobodyMoves(procs: Processes)
    ensures Onward(procs, procs)
  {
  }

  lemma ForkedCrew(procs: Processes, r: RunnerId, runner: Runner, pid: Pid)
    requires Crew(procs, r, runner) && runner.stage.Launching? && runner.stage.launch.ToFork? && pid !in procs
    ensures var k := runner.stage.kind;
            Crew(procs[pid := Process(r, k, Waiting, true, false, true)], r,
                 runner.(stage := Launching(k, ToRecord(pid))))
  {
  }

  lemma RecordedCrew(procs: Processes, r: RunnerId, runner: Runner)
    requires Crew(procs, r, runner) && runner.stage.Launching? && runner.stage.launch.ToRecord?
    ensures var (k, pid) := (runner.stage.kind, runner.stage.launch.pid);
            Crew(procs, r, runner.(stage := Launching(k, ToPlace(pid)), known := runner.known[k := pid]))
  {
  }

  /** Placing and verifying a child change nothing that the crew speaks of. */
  lemma PlacedCrew(procs: Processes, r: RunnerId, runner: Runner, next: Launch)
    requires Crew(procs, r, runner) && runner.stage.Launching? && !runner.stage.launch.ToFork?
    requires !runner.stage.launch.ToRecord? && (next.ToVerify? || next.ToSignal?) && next.pid == runner.stage.launch.pid
    ensures Crew(procs, r, runner.(stage := Launching(runner.stage.kind, next)))
  {
  }

  lemma SignalledCrew(procs: Processes, r: RunnerId, runner: Runner)
    requires Crew(procs, r, runner) && runner.stage.Launching? && runner.stage.launch.ToSignal?
    requires procs[runner.stage.launch.pid].gate != Waiting
    ensures Crew(procs, r, runner.(stage := AfterSignal(runner.stage.kind)))
  {
    match runner.stage.kind case Monitor => case Watcher => case Sandbox => case Slirp =>
  }

  lemma ForkKeepsCrew(w: World, step: Step)
    requires Enabled(w, step) && (step.Fork? || step.Record?) && Crew(w.procs, step.r, w.runners[step.r])
    ensures Crew(Apply(w, step).procs, step.r, Apply(w, step).runners[step.r])
  {
    hide LockFree, LeafClear, KnownStopped, Crew, AfterSignal;
    match step
    case Fork(r, pid) => ForkedCrew(w.procs, r, w.runners[r], pid);
    case Record(r) => RecordedCrew(w.procs, r, w.runners[r]);
  }

  lemma PlaceKeepsCrew(w: World, step: Step)
    requires Enabled(w, step) && (step.Place? || step.Verify? || step.Signal?)
    requires Crew(w.procs, step.r, w.runners[step.r])
    ensures Crew(Apply(w, step).procs, step.r, Apply(w, step).runners[step.r])
  {
    var runner, after := w.runners[step.r], Apply(w, step).procs;
    StepsGoOnward(w, step);
    OnwardKeepsCrew(w.procs, after, step.r, runner);
    hide LockFree, LeafClear, KnownStopped, Crew, AfterSignal, Onward;
    match step
    case Place(r) => PlacedCrew(after, r, runner, ToVerify(runner.stage.launch.pid));
    case Verify(r) => PlacedCrew(after, r, runner, ToSignal(runner.stage.launch.pid));
    case Signal(r) => SignalledCrew(after, r, runner);
  }

  /** What the other steps do to the record. */
  ghost predicate NothingStarted(runner: Runner, next: Runner) {
    && next.known.Keys <= runner.known.Keys && (forall k | k in next.known :: next.known[k] == runner.known[k])
    && (next.stage.Early() || next.stage.Launching? ==> runner.stage.Early())
    && (next.stage.Launching? ==> next.stage == Launching(Monitor, ToFork))
    && !next.stage.Supervising?
    && (next.stage.AwaitingSandbox? ==> runner.stage.Supervising? && next.known == runner.known)
  }

  lemma NothingStartedKeepsCrew(procs: Processes, r: RunnerId, runner: Runner, next: Runner)
    requires Crew(procs, r, runner) && NothingStarted(runner, next)
    ensures Crew(procs, r, next)
  {
  }

  lemma OtherStepsStartNothing(w: World, step: Step)
    requires Enabled(w, step) && step.ByRunner()
    requires !step.Fork? && !step.Record? && !step.Place? && !step.Verify? && !step.Signal?
    ensures NothingStarted(w.runners[step.r], Apply(w, step).runners[step.r]) && Apply(w, step).procs == w.procs
  {
    hide LockFree, LeafClear, KnownStopped, NextLeaf;
  }

  lemma OwnStepKeepsCrew(w: World, step: Step)
    requires Enabled(w, step) && step.ByRunner() && Crew(w.procs, step.r, w.runners[step.r])
    ensures Crew(Apply(w, step).procs, step.r, Apply(w, step).runners[step.r])
  {
    if step.Fork? || step.Record? {
      ForkKeepsCrew(w, step);
    } else if step.Place? || step.Verify? || step.Signal? {
      PlaceKeepsCrew(w, step);
    } else {
      OtherStepsStartNothing(w, step);
      NothingStartedKeepsCrew(w.procs, step.r, w.runners[step.r], Apply(w, step).runners[step.r]);
    }
    hide *;
  }

  lemma OthersLeaveTheRecord(w: World, step: Step, r: RunnerId)
    requires Enabled(w, step) && r in w.runners && !(step.ByRunner() && step.r == r)
    ensures r in Apply(w, step).runners && Apply(w, step).runners[r] == w.runners[r]
  {
    hide LockFree, LeafClear, KnownStopped, NextRunner, NextProcs, NextLeaf;
  }

  lemma NewcomersAreNew(w: World, step: Step, r: RunnerId)
    requires Enabled(w, step) && r in Apply(w, step).runners && r !in w.runners
    ensures Apply(w, step).runners[r] == Runner(Opening, false, map[])
  {
    hide LockFree, LeafClear, KnownStopped, NextRunner, NextProcs, NextLeaf;
  }

  lemma StepKeepsCrewed(w: World, step: Step)
    requires Enabled(w, step) && Crewed(w)
    ensures Crewed(Apply(w, step))
  {
    var t := Apply(w, step);
    StepsGoOnward(w, step);
    hide Enabled, Apply, Onward;
    forall r | r in t.runners ensures Crew(t.procs, r, t.runners[r]) {
      if r !in w.runners {
        NewcomersAreNew(w, step, r);
      } else if step.ByRunner() && step.r == r {
        OwnStepKeepsCrew(w, step);
      } else {
        OthersLeaveTheRecord(w, step, r);
        OnwardKeepsCrew(w.procs, t.procs, r, w.runners[r]);
      }
    }
  }

  lemma {:induction false} RunKeepsCrewed(w: World, steps: seq<Step>)
    requires IsRun(w, steps) && Crewed(w)
    ensures Crewed(Final(w, steps))
    decreases |steps|
  {
    if steps != [] {
      StepKeepsCrewed(w, steps[0]);
      RunKeepsCrewed(Apply(w, steps[0]), steps[1..]);
    }
  }

  /** A runner that starts a child has let through their gates, and knows, its
      children of the kinds before: monitor, watcher, sandbox, slirp.  One that
      supervises has let all four through, and knows no others. */
  lemma StartedInOrder(steps: seq<Step>, r: RunnerId, k: Kind)
    requires IsRun(Nothing, steps) && r in Final(Nothing, steps).runners && k != Descendant
    ensures var w := Final(Nothing, steps);
            var runner := w.runners[r];
            && (runner.stage.Launching? && runner.stage.launch.ToFork? ==>
                  (k in runner.known <==> StartOrder(k) < StartOrder(runner.stage.kind)))
            && (runner.stage.Supervising? ==> runner.known.Keys == {Monitor, Watcher, Sandbox, Slirp})
            && (k in runner.known ==> IsChild(w.procs, runner.known[k], r, k))
            && (k in runner.known && (runner.stage.Supervising? || (runner.stage.Launching? && runner.stage.kind != k))
                ==> w.procs[runner.known[k]].gate != Waiting)
  {
    RunKeepsCrewed(Nothing, steps);
    var w := Final(Nothing, steps);
    var runner := w.runners[r];
    assert Crew(w.procs, r, runner);
    if runner.stage.Supervising? {
      forall j ensures j in runner.known.Keys <==> j in {Monitor, Watcher, Sandbox, Slirp} {
        match j case Monitor => case Watcher => case Sandbox => case Slirp => case Descendant =>
      }
    }
  }

  // ----- The launcher at its gate -----

  /** The sandbox launcher keeps the lock's descriptor until it is past its gate. */
  ghost predicate LaunchersHoldLock(procs: Processes) {
    forall p | Live(procs, p) && procs[p].kind == Sandbox && procs[p].gate != Passed :: procs[p].holdsLock
  }

  /** A child in hand has not been let go. */
  ghost predicate HandWaits(procs: Processes, r: RunnerId, stage: Stage) {
    stage.Launching? && !stage.launch.ToFork? ==>
      stage.launch.pid in procs && procs[stage.launch.pid].owner == r && procs[stage.launch.pid].gate.Waiting?
  }

  ghost predicate LaunchersWait(w: World) {
    LaunchersHoldLock(w.procs) && forall r | r in w.runners :: HandWaits(w.procs, r, w.runners[r].stage)
  }

  /** The step lets no child out of a hand that is not the runner's own. */
  ghost predicate SparesHand(before: Processes, after: Processes, p: Pid) {
    p in before && p in after && after[p].owner == before[p].owner && after[p].gate == before[p].gate
  }

  lemma HandIsSpared(w: World, step: Step, p: Pid)
    requires Enabled(w, step) && p in w.procs && w.procs[p].gate.Waiting?
    requires step.Signal? ==> w.runners[step.r].stage.launch.pid != p
    ensures SparesHand(w.procs, Apply(w, step).procs, p)
  {
    hide LockFree, LeafClear, KnownStopped, NextRunner, NextLeaf;
  }

  lemma OwnHandWaits(w: World, step: Step)
    requires Enabled(w, step) && step.ByRunner() && HandWaits(w.procs, step.r, w.runners[step.r].stage)
    ensures HandWaits(Apply(w, step).procs, step.r, Apply(w, step).runners[step.r].stage)
  {
    hide LockFree, LeafClear, KnownStopped, NextLeaf;
  }

  lemma StepKeepsHands(w: World, step: Step, r: RunnerId)
    requires Enabled(w, step) && LaunchersWait(w) && r in Apply(w, step).runners
    ensures HandWaits(Apply(w, step).procs, r, Apply(w, step).runners[r].stage)
  {
    if r !in w.runners {
      NewcomersAreNew(w, step, r);
    } else if step.ByRunner() && step.r == r {
      OwnHandWaits(w, step);
    } else {
      OthersLeaveTheRecord(w, step, r);
      var stage := w.runners[r].stage;
      if stage.Launching? && !stage.launch.ToFork? {
        assert HandWaits(w.procs, r, stage);
        assert step.Signal? ==> HandWaits(w.procs, step.r, w.runners[step.r].stage);
        HandIsSpared(w, step, stage.launch.pid);
      }
      hide Enabled, Apply, LaunchersHoldLock;
    }
  }

  lemma StepKeepsLaunchersHoldLock(w: World, step: Step)
    requires Enabled(w, step) && LaunchersWait(w)
    ensures LaunchersHoldLock(Apply(w, step).procs)
  {
    hide LockFree, LeafClear, KnownStopped, NextRunner, NextLeaf;
    var after := Apply(w, step).procs;
    assert step.ByRunner() ==> HandWaits(w.procs, step.r, w.runners[step.r].stage);
    forall p | Live(after, p) && after[p].kind == Sandbox && after[p].gate != Passed ensures after[p].holdsLock {
      assert p in w.procs ==> Live(w.procs, p) && w.procs[p].kind == Sandbox && w.procs[p].gate != Passed;
    }
  }

  lemma {:induction false} RunKeepsLaunchersWaiting(w: World, steps: seq<Step>)
    requires IsRun(w, steps) && LaunchersWait(w)
    ensures LaunchersWait(Final(w, steps))
    decreases |steps|
  {
    hide Enabled, Apply, HandWaits, LaunchersHoldLock;
    if steps != [] {
      var t := Apply(w, steps[0]);
      StepKeepsLaunchersHoldLock(w, steps[0]);
      forall r | r in t.runners ensures HandWaits(t.procs, r, t.runners[r].stage) { StepKeepsHands(w, steps[0], r); }
      RunKeepsLaunchersWaiting(t, steps[1..]);
    }
  }

  /** Whatever became of its runner, while a sandbox launcher waits at its gate
      nobody gets past the tenant lock: no launcher is left to wake up beside a
      later generation. */
  lemma NobodyPassesAWaitingLauncher(steps: seq<Step>, p: Pid, r: RunnerId)
    requires IsRun(Nothing, steps)
    ensures var w := Final(Nothing, steps);
            Live(w.procs, p) && w.procs[p].kind == Sandbox && w.procs[p].gate != Passed ==> !Enabled(w, Acquire(r))
  {
    RunKeepsLaunchersWaiting(Nothing, steps);
  }

  // ----- What the look at the leaf is worth -----

  /** The runner is past its look at the leaf: while it holds the lock it names
      the leaf, or nothing lives in it. */
  ghost predicate Sure(w: World, r: RunnerId) {
    r in w.runners &&
    var runner := w.runners[r];
    && !runner.stage.Opening? && !runner.stage.Locked? && !runner.stage.Armed?
    && (runner.stage.OwnsLock() ==> runner.leafSet || LeafClear(w.procs))
  }

  /** Nothing but placing puts a process into an empty leaf. */
  lemma ProcsStayClear(procs: Processes, stage: Stage, step: Step)
    requires LeafClear(procs) && Gated(procs) && !step.Place?
    requires step.Signal? ==> stage.Launching? && !stage.launch.ToFork? && stage.launch.pid in procs
    requires step.Fork? ==> stage.Launching?
    requires step.ByProcess() ==> Live(procs, step.pid) && (step.ForkChild? ==> procs[step.pid].gate.Passed?)
    ensures LeafClear(NextProcs(procs, stage, step))
  {
    assert step.ByProcess() ==> !LiveInLeaf(procs, step.pid);
    assert !step.ForkChild?;
    forall p ensures !LiveInLeaf(NextProcs(procs, stage, step), p) {
      assert !LiveInLeaf(procs, p);
    }
  }

  /** While a runner holds the lock, only itself can put a process into an empty
      leaf. */
  lemma EmptyLeafStays(w: World, step: Step, r: RunnerId)
    requires Inv(w) && Enabled(w, step) && r in w.runners && w.runners[r].stage.OwnsLock() && LeafClear(w.procs)
    requires step.Place? ==> step.r != r
    ensures LeafClear(Apply(w, step).procs)
  {
    SoleOwner(w, r);
    assert !step.Place?;
    hide LockFree, KnownStopped, NextRunner, NextLeaf, OneOwner, OneGeneration, RunnerOk, LeafClear, Gated;
    if step.ByRunner() {
      ProcsStayClear(w.procs, w.runners[step.r].stage, step);
    } else if step.ByProcess() {
      ProcsStayClear(w.procs, Opening, step);
    }
  }

  lemma StepKeepsSure(w: World, step: Step, r: RunnerId)
    requires Inv(w) && Enabled(w, step) && Sure(w, r)
    ensures Sure(Apply(w, step), r)
  {
    hide Inv, Enabled, Apply, LeafClear;
    if w.runners[r].stage.OwnsLock() && LeafClear(w.procs) && !(step.Place? && step.r == r) {
      EmptyLeafStays(w, step, r);
    }
    if step.ByRunner() && step.r == r {
      OwnStepKeepsSure(w, step);
    } else {
      OthersLeaveTheRecord(w, step, r);
    }
  }

  /** What a runner's own step does to its stage and its variable. */
  lemma OwnStepKeepsSure(w: World, step: Step)
    requires Inv(w) && Enabled(w, step) && step.ByRunner() && Sure(w, step.r)
    ensures step.r in Apply(w, step).runners
    ensures var (before, after) := (w.runners[step.r], Apply(w, step).runners[step.r]);
            && !after.stage.Opening? && !after.stage.Locked? && !after.stage.Armed?
            && (after.stage.OwnsLock() ==> before.stage.OwnsLock())
            && (before.leafSet && !after.leafSet ==> LeafClear(w.procs))
            && (step.Place? ==> after.leafSet)
  {
    hide LockFree, KnownStopped, NextProcs, NextLeaf, OneOwner, Gated, OneGeneration;
    assert RunnerOk(w.procs, step.r, w.runners[step.r]);
  }

  lemma {:induction false} RunKeepsSure(w: World, steps: seq<Step>, r: RunnerId)
    requires Inv(w) && IsRun(w, steps) && Sure(w, r)
    ensures Sure(Final(w, steps), r) && Inv(Final(w, steps))
    decreases |steps|
  {
    if steps != [] {
      StepKeepsInv(w, steps[0]);
      StepKeepsSure(w, steps[0], r);
      RunKeepsSure(Apply(w, steps[0]), steps[1..], r);
    }
  }

  /** A runner that named the leaf it found, or found none, leaves none populated
      when it exits through cleanup, at whatever point it failed. */
  lemma LookingLeavesTheLeafClear(w: World, look: Step, steps: seq<Step>)
    requires Inv(w) && (look.FindLeaf? || look.FindNoLeaf?) && Enabled(w, look) && IsRun(Apply(w, look), steps)
    ensures var t := Final(Apply(w, look), steps);
            look.r in t.runners && (t.runners[look.r].stage.Exiting? ==> LeafClear(t.procs))
  {
    StepKeepsInv(w, look);
    assert Sure(Apply(w, look), look.r);
    RunKeepsSure(Apply(w, look), steps, look.r);
    var t := Final(Apply(w, look), steps);
    assert RunnerOk(t.procs, look.r, t.runners[look.r]);
  }

  // ----- When a runner holds -----

  /** How often the runner gave up a cleanup attempt. */
  function GivenUp(steps: seq<Step>, r: RunnerId): nat
    decreases |steps|
  {
    if steps == [] then 0 else (if steps[0] == GiveUp(r) then 1 else 0) + GivenUp(steps[1..], r)
  }

  /** How many attempts are behind a stage. */
  function Behind(w: World, r: RunnerId): nat {
    if r !in w.runners then 0
    else match w.runners[r].stage
      case Held => 2
      case Scanning(attempt, _) => if attempt.Second? then 1 else 0
      case _ => 0
  }

  lemma OneMoreBehind(w: World, step: Step, r: RunnerId)
    requires Enabled(w, step) && step != HoldAfterAll(r)
    ensures Behind(Apply(w, step), r) <= Behind(w, r) + if step == GiveUp(r) then 1 else 0
  {
    if r in w.runners && !(step.ByRunner() && step.r == r) {
      OthersLeaveTheRecord(w, step, r);
      hide Apply, Enabled;
    } else {
      hide LockFree, LeafClear, KnownStopped, NextProcs, NextLeaf;
    }
  }

  lemma {:induction false} HoldingTakesTwo(w: World, steps: seq<Step>, r: RunnerId)
    requires IsRun(w, steps) && HoldAfterAll(r) !in steps
    ensures Behind(Final(w, steps), r) <= Behind(w, r) + GivenUp(steps, r)
    decreases |steps|
  {
    if steps != [] {
      OneMoreBehind(w, steps[0], r);
      HoldingTakesTwo(Apply(w, steps[0]), steps[1..], r);
    }
  }

  /** A runner holds only after it gave up two cleanup attempts, or after it found
      the leaf populated once everything had stopped. */
  lemma HoldsOnlyAfterTwoAttempts(steps: seq<Step>, r: RunnerId)
    requires IsRun(Nothing, steps) && r in Final(Nothing, steps).runners && Final(Nothing, steps).runners[r].stage.Held?
    ensures HoldAfterAll(r) in steps || GivenUp(steps, r) >= 2
  {
    if HoldAfterAll(r) !in steps { HoldingTakesTwo(Nothing, steps, r); }
  }

  // ----- A whole life -----

  /** Only the first runner, at a stage, and its processes. */
  ghost predicate Solo(w: World, runner: Runner, procs: Processes) {
    w.leaf && w.runners.Keys == {0} && w.runners[0] == runner && w.procs == procs
  }

  function Started(k: Kind): Process {
    Process(0, k, Signalled, true, true, true)
  }

  lemma SoloMoves(begun: seq<Step>, runner: Runner, procs: Processes, step: Step) returns (steps: seq<Step>)
    requires IsRun(Nothing, begun) && Solo(Final(Nothing, begun), runner, procs) && runner.stage.Launching?
    requires var launch := runner.stage.launch;
             || (step == Record(0) && launch.ToRecord?)
             || (step == Verify(0) && launch.ToVerify? && LiveInLeaf(procs, launch.pid))
             || (step.Fork? && step.r == 0 && launch.ToFork? && step.pid !in procs)
             || (step == Place(0) && launch.ToPlace? && Live(procs, launch.pid))
             || (step == Signal(0) && launch.ToSignal? && Live(procs, launch.pid))
    ensures IsRun(Nothing, steps)
    ensures Solo(Final(Nothing, steps), NextRunner(runner, step), NextProcs(procs, runner.stage, step))
  {
    hide IsRun, Final;
    assert Enabled(Final(Nothing, begun), step);
    hide LockFree, LeafClear, KnownStopped, Enabled;
    steps := Extend(Nothing, begun, step);
    hide NextRunner, NextProcs;
  }

  lemma PlaceChild(begun: seq<Step>, k: Kind, known: map<Kind, Pid>, procs: Processes, pid: Pid)
    returns (steps: seq<Step>)
    requires IsRun(Nothing, begun) && pid !in procs
    requires Solo(Final(Nothing, begun), Runner(Launching(k, ToFork), true, known), procs)
    ensures IsRun(Nothing, steps)
    ensures Solo(Final(Nothing, steps), Runner(Launching(k, ToVerify(pid)), true, known[k := pid]),
                 procs[pid := Process(0, k, Waiting, true, true, true)])
  {
    hide IsRun, Final, Solo;
    var child := Process(0, k, Waiting, true, false, true);
    var forked := procs[pid := child];
    assert forked[pid := child.(inLeaf := true)] == procs[pid := child.(inLeaf := true)];
    steps := SoloMoves(begun, Runner(Launching(k, ToFork), true, known), procs, Fork(0, pid));
    steps := SoloMoves(steps, Runner(Launching(k, ToRecord(pid)), true, known), forked, Record(0));
    steps := SoloMoves(steps, Runner(Launching(k, ToPlace(pid)), true, known[k := pid]), forked, Place(0));
  }

  /** Forks a child, records and places it, verifies where it is, and lets it go. */
  lemma LaunchChild(begun: seq<Step>, k: Kind, known: map<Kind, Pid>, procs: Processes, pid: Pid, next: Stage)
    returns (steps: seq<Step>)
    requires IsRun(Nothing, begun) && pid !in procs
    requires Solo(Final(Nothing, begun), Runner(Launching(k, ToFork), true, known), procs)
    requires || (k == Monitor && next == Launching(Watcher, ToFork))
             || (k == Watcher && next == Launching(Sandbox, ToFork))
             || (k == Sandbox && next == Launching(Slirp, ToFork)) || (k == Slirp && next == Supervising)
    ensures IsRun(Nothing, steps)
    ensures Solo(Final(Nothing, steps), Runner(next, true, known[k := pid]), procs[pid := Started(k)])
  {
    hide IsRun, Final, Solo;
    steps := PlaceChild(begun, k, known, procs, pid);
    var placed := procs[pid := Process(0, k, Waiting, true, true, true)];
    assert placed[pid := Started(k)] == procs[pid := Started(k)];
    steps := SoloMoves(steps, Runner(Launching(k, ToVerify(pid)), true, known[k := pid]), placed, Verify(0));
    steps := SoloMoves(steps, Runner(Launching(k, ToSignal(pid)), true, known[k := pid]), placed, Signal(0));
  }

  const AllKnown: map<Kind, Pid> := map[Monitor := 1, Watcher := 2, Sandbox := 3, Slirp := 4]
  const AllStarted: Processes :=
    map[1 := Started(Monitor), 2 := Started(Watcher), 3 := Started(Sandbox), 4 := Started(Slirp)]

  lemma LeafAlone() returns (steps: seq<Step>)
    ensures IsRun(Nothing, steps) && Solo(Final(Nothing, steps), Runner(Launching(Monitor, ToFork), true, map[]), map[])
  {
    hide IsRun, Final;
    steps := FirstLeaf();
  }

  /** Undisturbed, a runner gets to supervise its four children. */
  lemma UndisturbedRunnerSupervises() returns (steps: seq<Step>)
    ensures IsRun(Nothing, steps) && Solo(Final(Nothing, steps), Runner(Supervising, true, AllKnown), AllStarted)
  {
    hide IsRun, Final, Solo;
    steps := LeafAlone();
    var k1, p1 := map[Monitor := 1], map[1 := Started(Monitor)];
    var k2, p2 := k1[Watcher := 2], p1[2 := Started(Watcher)];
    var k3, p3 := k2[Sandbox := 3], p2[3 := Started(Sandbox)];
    steps := LaunchChild(steps, Monitor, map[], map[], 1, Launching(Watcher, ToFork));
    assert map[][Monitor := 1] == k1 && map[][1 := Started(Monitor)] == p1;
    steps := LaunchChild(steps, Watcher, k1, p1, 2, Launching(Sandbox, ToFork));
    steps := LaunchChild(steps, Sandbox, k2, p2, 3, Launching(Slirp, ToFork));
    steps := LaunchChild(steps, Slirp, k3, p3, 4, Supervising);
    assert k3[Slirp := 4] == AllKnown && p3[4 := Started(Slirp)] == AllStarted;
  }
}
