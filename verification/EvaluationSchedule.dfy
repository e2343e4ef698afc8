/** The evaluation schedule and the rows that the summary accepts. */
module EvaluationSchedule {
  import opened Sequences

  datatype Identity = Identity(task: string, backend: string, trial: int)

  const HASKELL: string := "HaskellBackend"
  const JAVASCRIPT: string := "JavaScriptBackend"
  const BACKENDS: set<string> := {HASKELL, JAVASCRIPT}

  // ----- The producer -----

  datatype Sample = Sample(trial: int, task: nat, backend: string)

  function TaskName(task: nat): string {
    match task
    case 0 => "data-summary"
    case 1 => "tree-audit"
    case 2 => "paginated-analytics"
    case _ => "customer-order-join"
  }

  function RowName(task: nat): string {
    if task == 4 then "order-fulfillment" else TaskName(task)
  }

  function Named(sample: Sample): Identity {
    Identity(RowName(sample.task), sample.backend, sample.trial)
  }

  predicate HaskellFirst(trial: int, task: nat) {
    (trial + task) % 2 == 0
  }

  function BackendOrder(trial: int, task: nat): (order: seq<string>)
    ensures |order| == 2
  {
    if HaskellFirst(trial, task) then [HASKELL, JAVASCRIPT] else [JAVASCRIPT, HASKELL]
  }

  function Trial(trial: int, tasks: seq<nat>): seq<Sample> {
    if tasks == [] then []
    else
      var order := BackendOrder(trial, tasks[0]);
      [Sample(trial, tasks[0], order[0]), Sample(trial, tasks[0], order[1])] + Trial(trial, tasks[1..])
  }

  /** Trials 1 to n in order, each over all tasks. */
  function Schedule(tasks: seq<nat>, trials: int): seq<Sample>
    decreases trials
  {
    if trials <= 0 then [] else Schedule(tasks, trials - 1) + Trial(trials, tasks)
  }

  const PROTOCOL: seq<nat> := [0, 1, 2, 3]
  const WITH_FULFILLMENT: seq<nat> := [0, 1, 2, 3, 4]

  const PROTOCOL_TASKS: set<string> := {"data-summary", "tree-audit", "paginated-analytics", "customer-order-join"}

  /** The names the summary asks for. */
  function ExpectedTasks(fulfillment: bool): set<string> {
    PROTOCOL_TASKS + if fulfillment then {"order-fulfillment"} else {}
  }

  function Tasks(fulfillment: bool): seq<nat> {
    if fulfillment then WITH_FULFILLMENT else PROTOCOL
  }

  // ----- What is where -----

  lemma {:induction false} TrialAt(trial: int, tasks: seq<nat>, j: nat)
    ensures |Trial(trial, tasks)| == 2 * |tasks|
    ensures j < |tasks| ==>
      Trial(trial, tasks)[2 * j..2 * j + 2]
      == if (trial + tasks[j]) % 2 == 0
         then [Sample(trial, tasks[j], "HaskellBackend"), Sample(trial, tasks[j], "JavaScriptBackend")]
         else [Sample(trial, tasks[j], "JavaScriptBackend"), Sample(trial, tasks[j], "HaskellBackend")]
    decreases |tasks|
  {
    if tasks != [] {
      TrialAt(trial, tasks[1..], if j > 0 then j - 1 else 0);
      var order, rest := BackendOrder(trial, tasks[0]), Trial(trial, tasks[1..]);
      var first := [Sample(trial, tasks[0], order[0]), Sample(trial, tasks[0], order[1])];
      assert Trial(trial, tasks) == first + rest;
      if 0 < j < |tasks| {
        assert (first + rest)[2 * j..2 * j + 2] == rest[2 * (j - 1)..2 * (j - 1) + 2];
      } else if j == 0 {
        assert (first + rest)[0..2] == first;
      }
    }
  }

  lemma {:induction false} ScheduleLength(tasks: seq<nat>, trials: nat)
    ensures |Schedule(tasks, trials)| == trials * (2 * |tasks|)
  {
    if trials > 0 {
      ScheduleLength(tasks, trials - 1);
      TrialAt(trials, tasks, 0);
      assert trials * (2 * |tasks|) == (trials - 1) * (2 * |tasks|) + 2 * |tasks|;
    }
  }

  /** After the earlier trials, every trial runs the tasks in order, each with
      both backends, Haskell first exactly when trial and task are both even or
      both odd. */
  lemma {:induction false} ScheduleAt(tasks: seq<nat>, trials: nat, trial: nat, j: nat)
    requires 1 <= trial <= trials && j < |tasks|
    ensures var at := |Schedule(tasks, trial - 1)| + 2 * j;
            && Schedule(tasks, trial - 1) <= Schedule(tasks, trials) && at + 2 <= |Schedule(tasks, trials)|
            && Schedule(tasks, trials)[at..at + 2]
               == if (trial + tasks[j]) % 2 == 0
                  then [Sample(trial, tasks[j], "HaskellBackend"), Sample(trial, tasks[j], "JavaScriptBackend")]
                  else [Sample(trial, tasks[j], "JavaScriptBackend"), Sample(trial, tasks[j], "HaskellBackend")]
    decreases trials
  {
    hide Trial;
    TrialAt(trials, tasks, j);
    var before, last := Schedule(tasks, trials - 1), Trial(trials, tasks);
    var at := |Schedule(tasks, trial - 1)| + 2 * j;
    assert Schedule(tasks, trials) == before + last;
    if trial == trials {
      assert (before + last)[at..at + 2] == last[2 * j..2 * j + 2];
    } else {
      ScheduleAt(tasks, trials - 1, trial, j);
      assert (before + last)[at..at + 2] == before[at..at + 2];
    }
    hide Schedule;
  }

  // ----- Who goes first -----

  /** The task was already run in this trial, with either backend. */
  predicate Started(samples: seq<Sample>, trial: int, task: nat) {
    exists x :: x in samples && x.trial == trial && x.task == task
  }

  /** How often a backend is the first in a trial to run the task. */
  function FirstTurns(samples: seq<Sample>, task: nat, backend: string): nat {
    if samples == [] then 0
    else
      var front, last := samples[..|samples| - 1], samples[|samples| - 1];
      FirstTurns(front, task, backend)
      + if last.task == task && last.backend == backend && !Started(front, last.trial, task) then 1 else 0
  }

  lemma OneMoreTurn(front: seq<Sample>, last: Sample, task: nat, backend: string)
    ensures FirstTurns(front + [last], task, backend)
         == FirstTurns(front, task, backend)
            + if last.task == task && last.backend == backend && !Started(front, last.trial, task) then 1 else 0
    ensures forall trial :: Started(front + [last], trial, task) <==>
      Started(front, trial, task) || (last.trial == trial && last.task == task)
  {
    var samples := front + [last];
    assert samples[..|samples| - 1] == front;
    forall trial ensures Started(samples, trial, task) <==>
      Started(front, trial, task) || (last.trial == trial && last.task == task)
    {
      if Started(front, trial, task) {
        var x :| x in front && x.trial == trial && x.task == task;
        assert x in samples;
      }
      assert last in samples;
    }
  }

  /** A trial gives its task one first turn, to the head of the backend order. */
  lemma {:induction false} TurnsInTrial(before: seq<Sample>, trial: int, tasks: seq<nat>, task: nat, backend: string)
    ensures FirstTurns(before + Trial(trial, tasks), task, backend)
         == FirstTurns(before, task, backend)
            + if task in tasks && !Started(before, trial, task) && BackendOrder(trial, task)[0] == backend then 1 else 0
    decreases |tasks|
  {
    hide FirstTurns, Started, BackendOrder;
    if tasks == [] {
      assert before + [] == before;
    } else {
      var order := BackendOrder(trial, tasks[0]);
      var a, b := Sample(trial, tasks[0], order[0]), Sample(trial, tasks[0], order[1]);
      OneMoreTurn(before, a, task, backend);
      OneMoreTurn(before + [a], b, task, backend);
      TurnsInTrial(before + [a] + [b], trial, tasks[1..], task, backend);
      assert before + Trial(trial, tasks) == before + [a] + [b] + Trial(trial, tasks[1..]);
    }
  }

  lemma {:induction false} TrialIsOfTrial(trial: int, tasks: seq<nat>)
    ensures forall x :: x in Trial(trial, tasks) ==> x.trial == trial
    decreases |tasks|
  {
    if tasks != [] { TrialIsOfTrial(trial, tasks[1..]); }
  }

  lemma {:induction false} NoLaterTrials(tasks: seq<nat>, trials: int)
    ensures forall x :: x in Schedule(tasks, trials) ==> x.trial <= trials
    decreases trials
  {
    if trials > 0 {
      NoLaterTrials(tasks, trials - 1);
      TrialIsOfTrial(trials, tasks);
    }
  }

  /** Each backend is the first to run a scheduled task in as many trials as the
      other, give or take one, and in as many for an even number of trials. */
  lemma {:induction false} FirstTurnsAreBalanced(tasks: seq<nat>, trials: nat, task: nat)
    requires task in tasks
    ensures var haskell := FirstTurns(Schedule(tasks, trials), task, HASKELL);
            var javascript := FirstTurns(Schedule(tasks, trials), task, JAVASCRIPT);
            && haskell + javascript == trials
            && -1 <= haskell - javascript <= 1
            && (trials % 2 == 0 ==> haskell == javascript)
    decreases trials
  {
    hide FirstTurns, Schedule;
    NoTurnsYet(tasks, task);
    if trials == 1 {
      TurnsUpTo(tasks, 1, task);
    } else if trials > 1 {
      FirstTurnsAreBalanced(tasks, trials - 2, task);
      TurnsUpTo(tasks, trials - 1, task);
      TurnsUpTo(tasks, trials, task);
      assert HaskellFirst(trials, task) != HaskellFirst(trials - 1, task);
    }
  }

  lemma NoTurnsYet(tasks: seq<nat>, task: nat)
    ensures forall backend :: FirstTurns(Schedule(tasks, 0), task, backend) == 0
  {
  }

  /** The last trial's turn. */
  lemma TurnsUpTo(tasks: seq<nat>, trials: int, task: nat)
    requires task in tasks && trials > 0
    ensures FirstTurns(Schedule(tasks, trials), task, HASKELL)
         == FirstTurns(Schedule(tasks, trials - 1), task, HASKELL) + if HaskellFirst(trials, task) then 1 else 0
    ensures FirstTurns(Schedule(tasks, trials), task, JAVASCRIPT)
         == FirstTurns(Schedule(tasks, trials - 1), task, JAVASCRIPT) + if HaskellFirst(trials, task) then 0 else 1
  {
    hide FirstTurns, HaskellFirst;
    assert HASKELL[0] != JAVASCRIPT[0];
    NoLaterTrials(tasks, trials - 1);
    assert !Started(Schedule(tasks, trials - 1), trials, task);
    TurnsInTrial(Schedule(tasks, trials - 1), trials, tasks, task, HASKELL);
    TurnsInTrial(Schedule(tasks, trials - 1), trials, tasks, task, JAVASCRIPT);
  }

  // ----- What the schedule runs -----

  function Identities(samples: seq<Sample>): seq<Identity> {
    seq(|samples|, i requires 0 <= i < |samples| => Named(samples[i]))
  }

  function Expected(tasks: set<string>, trials: set<int>): set<Identity> {
    set task, backend, trial | task in tasks && backend in BACKENDS && trial in trials :: Identity(task, backend, trial)
  }

  function UpTo(trials: int): (r: set<int>)
    ensures forall k :: k in r <==> 1 <= k <= trials
    decreases trials
  {
    if trials <= 0 then {} else UpTo(trials - 1) + {trials}
  }

  function RowNames(tasks: seq<nat>): set<string> {
    set task | task in tasks :: RowName(task)
  }

  predicate NamedApart(tasks: seq<nat>) {
    forall i, j :: 0 <= i < j < |tasks| ==> RowName(tasks[i]) != RowName(tasks[j])
  }

  lemma IdentitiesConcat(a: seq<Sample>, b: seq<Sample>)
    ensures Identities(a + b) == Identities(a) + Identities(b)
  {
  }

  lemma DistinctEmpty()
    ensures Distinct(Identities([]))
  {
  }

  lemma ExpectedSplits(a: set<string>, b: set<string>, x: set<int>, y: set<int>)
    ensures Expected(a + b, x) == Expected(a, x) + Expected(b, x)
    ensures Expected(a, x + y) == Expected(a, x) + Expected(a, y)
    ensures a !! b ==> Expected(a, x) !! Expected(b, x)
    ensures x !! y ==> Expected(a, x) !! Expected(a, y)
  {
  }

  lemma OneTaskIsExpected(name: string, trial: int, task: nat)
    ensures var order := BackendOrder(trial, task);
            var first := [Identity(name, order[0], trial), Identity(name, order[1], trial)];
            Elements(first) == Expected({name}, {trial}) && Distinct(first)
  {
    var order := BackendOrder(trial, task);
    var first := [Identity(name, order[0], trial), Identity(name, order[1], trial)];
    assert first[0] in first && first[1] in first;
    assert HASKELL[0] != JAVASCRIPT[0];
    assert order[0] != order[1] && order[0] in BACKENDS && order[1] in BACKENDS;
  }

  lemma {:induction false} TrialIsExpected(trial: int, tasks: seq<nat>)
    requires NamedApart(tasks)
    ensures Elements(Identities(Trial(trial, tasks))) == Expected(RowNames(tasks), {trial})
    ensures Distinct(Identities(Trial(trial, tasks)))
    decreases |tasks|
  {
    if tasks != [] {
      hide RowName, BackendOrder, Distinct;
      var name, order := RowName(tasks[0]), BackendOrder(trial, tasks[0]);
      var first := [Identity(name, order[0], trial), Identity(name, order[1], trial)];
      var left := Identities(Trial(trial, tasks[1..]));
      TrialIsExpected(trial, tasks[1..]);
      assert Identities(Trial(trial, tasks)) == first + left;
      assert tasks == [tasks[0]] + tasks[1..];
      assert name !in RowNames(tasks[1..]);
      OneTaskIsExpected(name, trial, tasks[0]);
      ExpectedSplits({name}, RowNames(tasks[1..]), {trial}, {});
      DistinctConcat(first, left);
      ElementsConcat(first, left);
      assert RowNames(tasks) == {name} + RowNames(tasks[1..]);
    }
  }

  lemma {:induction false} TrialsAreExpected(tasks: seq<nat>, trials: int)
    requires NamedApart(tasks)
    ensures Elements(Identities(Schedule(tasks, trials))) == Expected(RowNames(tasks), UpTo(trials))
    ensures Distinct(Identities(Schedule(tasks, trials)))
    decreases trials
  {
    hide RowName, RowNames, Trial, NamedApart, Distinct;
    if trials <= 0 {
      assert Distinct(Identities([])) by { DistinctEmpty(); }
    } else {
      var before, last := Identities(Schedule(tasks, trials - 1)), Identities(Trial(trials, tasks));
      TrialsAreExpected(tasks, trials - 1);
      TrialIsExpected(trials, tasks);
      IdentitiesConcat(Schedule(tasks, trials - 1), Trial(trials, tasks));
      ExpectedSplits(RowNames(tasks), {}, UpTo(trials - 1), {trials});
      ElementsConcat(before, last);
      DistinctConcat(before, last);
    }
  }

  /** The schedule runs every identity that the summary expects, each once. */
  lemma ScheduleIsExpected(fulfillment: bool, trials: int)
    ensures Elements(Identities(Schedule(Tasks(fulfillment), trials)))
         == Expected(ExpectedTasks(fulfillment), UpTo(trials))
    ensures Distinct(Identities(Schedule(Tasks(fulfillment), trials)))
  {
    hide *;
    TaskNames(fulfillment);
    TrialsAreExpected(Tasks(fulfillment), trials);
  }

  lemma TaskNames(fulfillment: bool)
    ensures RowNames(Tasks(fulfillment)) == ExpectedTasks(fulfillment) && NamedApart(Tasks(fulfillment))
    ensures |Tasks(fulfillment)| == (if fulfillment then 5 else 4) && forall i :: 0 <= i < |Tasks(fulfillment)| ==>
      RowName(Tasks(fulfillment)[i])
      == ["data-summary", "tree-audit", "paginated-analytics", "customer-order-join", "order-fulfillment"][i]
  {
    NamesOf(Tasks(fulfillment));
    NamesDiffer(Tasks(fulfillment));
  }

  lemma NamesOf(tasks: seq<nat>)
    requires tasks == PROTOCOL || tasks == WITH_FULFILLMENT
    ensures RowNames(tasks) == PROTOCOL_TASKS + if tasks == WITH_FULFILLMENT then {"order-fulfillment"} else {}
  {
    assert RowName(0) == "data-summary" && RowName(1) == "tree-audit" && RowName(2) == "paginated-analytics";
    assert RowName(3) == "customer-order-join" && RowName(4) == "order-fulfillment";
    hide RowName;
    assert tasks[0] == 0 && tasks[1] == 1 && tasks[2] == 2 && tasks[3] == 3;
    assert forall task :: task in tasks ==> 0 <= task < |tasks|;
  }

  lemma NamesDiffer(tasks: seq<nat>)
    requires tasks == PROTOCOL || tasks == WITH_FULFILLMENT
    ensures NamedApart(tasks)
  {
    assert RowName(0)[0] == 'd' && RowName(1)[0] == 't' && RowName(2)[0] == 'p';
    assert RowName(3)[0] == 'c' && RowName(4)[0] == 'o';
    hide RowName;
  }
}
