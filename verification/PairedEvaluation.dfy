/** Reading the rows of an evaluation and counting paired outcomes. */
module PairedEvaluation {
  import opened EvaluationSchedule
  import opened Sequences
  import opened Wrappers

  /** A result file; `passed` is None when it is not a boolean. */
  datatype ResultFile = ResultFile(task: string, backend: string, trial: int, passed: Option<bool>) {
    function Identity(): Identity { EvaluationSchedule.Identity.Identity(task, backend, trial) }
  }

  datatype Row = Row(identity: Identity, passed: bool)

  datatype Error =
    | NotBoolean
    | DuplicateSample(identity: Identity)
    | NoRows
    | BadSchedule(missing: set<Identity>, unexpected: set<Identity>)
    | DuplicatePaired

  function FileIdentities(files: seq<ResultFile>): seq<Identity> {
    seq(|files|, i requires 0 <= i < |files| => files[i].Identity())
  }

  function RowIdentities(rows: seq<Row>): seq<Identity> {
    seq(|rows|, i requires 0 <= i < |rows| => rows[i].identity)
  }

  predicate AllBoolean(files: seq<ResultFile>) {
    forall i :: 0 <= i < |files| ==> files[i].passed.Some?
  }

  function Observed(identities: set<Identity>): set<int> {
    set identity | identity in identities :: identity.trial
  }

  function ObservedTasks(identities: set<Identity>): set<string> {
    set identity | identity in identities :: identity.task
  }

  /** The identities that must be there, given the ones that are. */
  function Required(identities: set<Identity>, trials: Option<int>, tasks: Option<set<string>>): set<Identity> {
    Expected(if tasks.Some? then tasks.value else ObservedTasks(identities),
             if trials.Some? then UpTo(trials.value) else Observed(identities))
  }

  /** The rows of the files, in the files' order. */
  predicate RowsOf(files: seq<ResultFile>, rows: seq<Row>) {
    && |rows| == |files|
    && forall i :: 0 <= i < |files| ==>
         rows[i].identity == files[i].Identity() && files[i].passed == Some(rows[i].passed)
  }

  predicate Acceptable(files: seq<ResultFile>, trials: Option<int>, tasks: Option<set<string>>) {
    && files != [] && AllBoolean(files) && Distinct(FileIdentities(files))
    && Elements(FileIdentities(files)) == Required(Elements(FileIdentities(files)), trials, tasks)
  }

  /** What an error says of the files. */
  predicate Explains(files: seq<ResultFile>, trials: Option<int>, tasks: Option<set<string>>, error: Error) {
    var present := Elements(FileIdentities(files));
    match error
    case NotBoolean => exists i :: 0 <= i < |files| && files[i].passed.None?
    case DuplicateSample(identity) =>
      exists i, j :: 0 <= i < j < |files| && files[i].Identity() == files[j].Identity() == identity
    case NoRows => files == []
    case BadSchedule(missing, unexpected) =>
      && missing == Required(present, trials, tasks) - present
      && unexpected == present - Required(present, trials, tasks)
      && missing + unexpected != {} && AllBoolean(files) && Distinct(FileIdentities(files))
    case DuplicatePaired => false
  }

  /** load_rows. */
  method LoadRows(files: seq<ResultFile>, trials: Option<int>, tasks: Option<set<string>>)
    returns (r: Result<seq<Row>, Error>)
    ensures r.Ok? <==> Acceptable(files, trials, tasks)
    ensures r.Ok? ==> RowsOf(files, r.value)
    ensures r.Err? ==> Explains(files, trials, tasks, r.error)
  {
    var rows := [];
    var identities := {};
    for i := 0 to |files|
      invariant RowsOf(files[..i], rows) && AllBoolean(files[..i])
      invariant Distinct(FileIdentities(files[..i])) && identities == Elements(FileIdentities(files[..i]))
    {
      var file := files[i];
      var identity := file.Identity();
      ExtendedFiles(files, i);
      if file.passed.None? { return Err(NotBoolean); }
      if identity in identities {
        ghost var j :| 0 <= j < i && FileIdentities(files[..i])[j] == identity;
        return Err(DuplicateSample(identity));
      }
      identities := identities + {identity};
      rows := rows + [Row(identity, file.passed.value)];
    }
    assert files[..|files|] == files;
    if rows == [] { return Err(NoRows); }
    var expected := Required(identities, trials, tasks);
    if identities != expected {
      assert identities == expected - (expected - identities) + (identities - expected);
      return Err(BadSchedule(expected - identities, identities - expected));
    }
    r := Ok(rows);
  }

  /** One more file. */
  lemma ExtendedFiles(files: seq<ResultFile>, i: nat)
    requires i < |files| && Distinct(FileIdentities(files[..i]))
    ensures var identity := files[i].Identity();
            && Elements(FileIdentities(files[..i + 1])) == Elements(FileIdentities(files[..i])) + {identity}
            && (Distinct(FileIdentities(files[..i + 1])) <==> identity !in Elements(FileIdentities(files[..i])))
            && (identity in Elements(FileIdentities(files[..i])) ==> !Distinct(FileIdentities(files)))
  {
    var before, identity := FileIdentities(files[..i]), files[i].Identity();
    assert FileIdentities(files[..i + 1]) == before + [identity];
    DistinctExtended(before, identity);
    ElementsConcat(before, [identity]);
    if identity in before {
      assert FileIdentities(files) == before + [identity] + FileIdentities(files[i + 1..]);
      DistinctPrefix(FileIdentities(files), |before| + 1);
    }
  }

  /** With an evaluation's names and trial count given, exactly its schedule
      is accepted: its results in any order, every one there, none twice. */
  lemma AcceptedAreTheSchedule(files: seq<ResultFile>, fulfillment: bool, trials: int)
    ensures Acceptable(files, Some(trials), Some(ExpectedTasks(fulfillment)))
       <==> && trials > 0 && AllBoolean(files)
            && multiset(FileIdentities(files)) == multiset(Identities(Schedule(Tasks(fulfillment), trials)))
  {
    hide Distinct, ExpectedTasks, Tasks, AllBoolean, Schedule, Named;
    var present, planned := FileIdentities(files), Identities(Schedule(Tasks(fulfillment), trials));
    ScheduleIsExpected(fulfillment, trials);
    SameElements(planned, present);
    if files != [] { assert present[0] in Elements(present); }
    if trials > 0 { FirstSample(fulfillment, trials); }
  }

  lemma FirstSample(fulfillment: bool, trials: int)
    requires trials > 0
    ensures Expected(ExpectedTasks(fulfillment), UpTo(trials)) != {}
  {
    assert Identity("tree-audit", HASKELL, 1) in Expected(ExpectedTasks(fulfillment), UpTo(trials));
  }

  predicate WholeTrials(identities: set<Identity>, tasks: set<string>, trials: set<int>) {
    trials != {} && identities == Expected(tasks, trials)
  }

  /** Without a trial count exactly the results of whole trials pass, whichever
      and however many: a schedule that stopped early, between trials, is not
      noticed, nor is a trial left out. */
  lemma WithoutACountAnyWholeTrialsPass(files: seq<ResultFile>, tasks: set<string>)
    requires tasks != {}
    ensures Acceptable(files, None, Some(tasks))
       <==> && AllBoolean(files) && Distinct(FileIdentities(files))
            && exists trials :: WholeTrials(Elements(FileIdentities(files)), tasks, trials)
  {
    hide Distinct, AllBoolean;
    var ids := FileIdentities(files);
    var present := Elements(ids);
    if files != [] {
      assert ids[0] in present;
      assert ids[0].trial in Observed(present);
    }
    if Acceptable(files, None, Some(tasks)) {
      assert WholeTrials(present, tasks, Observed(present));
    }
    if trials :| WholeTrials(present, tasks, trials) {
      ObservedInGrid(tasks, trials);
      var task, trial :| task in tasks && trial in trials;
      assert Identity(task, HASKELL, trial) in present;
    }
  }

  lemma ObservedInGrid(tasks: set<string>, trials: set<int>)
    requires tasks != {}
    ensures Observed(Expected(tasks, trials)) == trials
  {
    var task :| task in tasks;
    forall k | k in trials ensures k in Observed(Expected(tasks, trials)) {
      assert Identity(task, HASKELL, k) in Expected(tasks, trials);
    }
  }

  /** Without names either, the results of any tasks in any trials pass, so long
      as every task was run in every trial. */
  lemma WithoutNamesAnyGridPasses(files: seq<ResultFile>)
    ensures Acceptable(files, None, None)
       <==> && files != [] && AllBoolean(files) && Distinct(FileIdentities(files))
            && exists tasks, trials :: Elements(FileIdentities(files)) == Expected(tasks, trials)
  {
    hide Distinct, AllBoolean;
    var ids := FileIdentities(files);
    var present := Elements(ids);
    if Acceptable(files, None, None) {
      assert present == Expected(ObservedTasks(present), Observed(present));
    }
    if files != [] {
      assert ids[0] in present;
      if tasks, trials :| present == Expected(tasks, trials) { GridIsObserved(tasks, trials, ids[0]); }
    }
  }

  lemma GridIsObserved(tasks: set<string>, trials: set<int>, identity: Identity)
    requires identity in Expected(tasks, trials)
    ensures ObservedTasks(Expected(tasks, trials)) == tasks && Observed(Expected(tasks, trials)) == trials
  {
    assert identity.task in tasks;
    ObservedInGrid(tasks, trials);
    forall task | task in tasks ensures task in ObservedTasks(Expected(tasks, trials)) {
      assert Identity(task, identity.backend, identity.trial) in Expected(tasks, trials);
    }
  }

  // ----- Pairs -----

  type Pair = map<string, bool>
  type Pairs = map<(string, int), Pair>

  function Key(row: Row): (string, int) {
    (row.identity.task, row.identity.trial)
  }

  function PairAt(pairs: Pairs, key: (string, int)): Pair {
    if key in pairs then pairs[key] else map[]
  }

  function Paired(rows: seq<Row>): Pairs {
    if rows == [] then map[]
    else
      var pairs, last := Paired(rows[..|rows| - 1]), rows[|rows| - 1];
      pairs[Key(last) := PairAt(pairs, Key(last))[last.identity.backend := last.passed]]
  }

  datatype Outcome = BothCorrect | HaskellOnly | JavascriptOnly | NeitherCorrect | Unpaired

  function OutcomeOf(pair: Pair): Outcome {
    if pair.Keys != BACKENDS then Unpaired
    else if pair[HASKELL] && pair[JAVASCRIPT] then BothCorrect
    else if pair[HASKELL] then HaskellOnly
    else if pair[JAVASCRIPT] then JavascriptOnly
    else NeitherCorrect
  }

  function WithOutcome(pairs: Pairs, outcome: Outcome): set<(string, int)> {
    set key | key in pairs && OutcomeOf(pairs[key]) == outcome
  }

  datatype Counts = Counts(bothCorrect: nat, haskellOnly: nat, javascriptOnly: nat, neitherCorrect: nat, unpaired: nat)

  /** The number of pairs with each outcome. */
  predicate Counted(pairs: Pairs, counts: Counts) {
    && counts.bothCorrect == |WithOutcome(pairs, BothCorrect)|
    && counts.haskellOnly == |WithOutcome(pairs, HaskellOnly)|
    && counts.javascriptOnly == |WithOutcome(pairs, JavascriptOnly)|
    && counts.neitherCorrect == |WithOutcome(pairs, NeitherCorrect)|
    && counts.unpaired == |WithOutcome(pairs, Unpaired)|
  }

  lemma RowsExtended(front: seq<Row>, last: Row)
    ensures Elements(RowIdentities(front + [last])) == Elements(RowIdentities(front)) + {last.identity}
    ensures Distinct(RowIdentities(front + [last])) <==>
      Distinct(RowIdentities(front)) && last.identity !in Elements(RowIdentities(front))
    ensures forall row :: row in front ==> row.identity in Elements(RowIdentities(front))
  {
    assert RowIdentities(front + [last]) == RowIdentities(front) + [last.identity];
    DistinctExtended(RowIdentities(front), last.identity);
    ElementsConcat(RowIdentities(front), [last.identity]);
    forall row | row in front ensures row.identity in RowIdentities(front) {
      var i :| 0 <= i < |front| && front[i] == row;
      assert RowIdentities(front)[i] == row.identity;
    }
  }

  /** Which row results the pairs remember. */
  predicate Remembers(pairs: Pairs, rows: seq<Row>) {
    forall row :: row in rows ==>
      row.identity.backend in PairAt(pairs, Key(row)) && PairAt(pairs, Key(row))[row.identity.backend] == row.passed
  }

  predicate Holds(pairs: Pairs, identity: Identity) {
    identity.backend in PairAt(pairs, (identity.task, identity.trial))
  }

  /** The pairs hold the rows' identities and results, and nothing else. */
  lemma {:induction false} PairsHoldRows(rows: seq<Row>)
    requires Distinct(RowIdentities(rows))
    ensures forall identity :: identity in Elements(RowIdentities(rows)) <==> Holds(Paired(rows), identity)
    ensures Remembers(Paired(rows), rows)
  {
    hide Distinct, RowIdentities, Elements;
    if rows == [] {
      NoRowIdentities();
    } else {
      var front, last := rows[..|rows| - 1], rows[|rows| - 1];
      assert rows == front + [last];
      RowsExtended(front, last);
      PairsHoldRows(front);
      forall row | row in front ensures row.identity != last.identity {}
    }
  }

  lemma NoRowIdentities()
    ensures Elements(RowIdentities([])) == {}
  {
  }

  predicate NoEmptyPairs(pairs: Pairs) {
    forall key :: key in pairs ==> pairs[key] != map[]
  }

  lemma {:induction false} PairsAreNotEmpty(rows: seq<Row>)
    ensures NoEmptyPairs(Paired(rows))
  {
    if rows != [] {
      var last := rows[|rows| - 1];
      PairsAreNotEmpty(rows[..|rows| - 1]);
      assert last.identity.backend in Paired(rows)[Key(last)];
    }
  }

  /** The backend ran the task in the trial, and how that ended. */
  ghost predicate Ended(rows: seq<Row>, key: (string, int), backend: string, passed: bool) {
    exists row :: row in rows && row.identity == Identity(key.0, backend, key.1) && row.passed == passed
  }

  ghost predicate Ran(rows: seq<Row>, key: (string, int), backend: string) {
    Ended(rows, key, backend, true) || Ended(rows, key, backend, false)
  }

  /** Whatever the rows, the outcome of a task in a trial is what the two backends
      did there; anything but one row of each is unpaired. */
  lemma OutcomeSpelledOut(rows: seq<Row>, key: (string, int))
    requires Distinct(RowIdentities(rows)) && key in Paired(rows)
    ensures OutcomeOf(Paired(rows)[key]) ==
      if !(forall backend :: Ran(rows, key, backend) <==> backend in {"HaskellBackend", "JavaScriptBackend"})
      then Unpaired
      else if Ended(rows, key, "HaskellBackend", true) then
        if Ended(rows, key, "JavaScriptBackend", true) then BothCorrect else HaskellOnly
      else if Ended(rows, key, "JavaScriptBackend", true) then JavascriptOnly else NeitherCorrect
  {
    var pair := Paired(rows)[key];
    hide Distinct, Paired;
    forall backend ensures Ran(rows, key, backend) <==> backend in pair
                   ensures Ended(rows, key, backend, true) <==> backend in pair && pair[backend]
    {
      RanInPair(rows, key, backend);
    }
    hide Ran, Ended;
    assert pair.Keys == BACKENDS <==> forall backend :: backend in pair <==> backend in {HASKELL, JAVASCRIPT};
  }

  lemma RanInPair(rows: seq<Row>, key: (string, int), backend: string)
    requires Distinct(RowIdentities(rows)) && key in Paired(rows)
    ensures Ran(rows, key, backend) <==> backend in Paired(rows)[key]
    ensures Ended(rows, key, backend, true) <==> backend in Paired(rows)[key] && Paired(rows)[key][backend]
  {
    PairsHoldRows(rows);
    hide Distinct, Paired;
    var identity := Identity(key.0, backend, key.1);
    assert Holds(Paired(rows), identity) <==> backend in Paired(rows)[key];
    if identity in Elements(RowIdentities(rows)) {
      var i :| 0 <= i < |rows| && RowIdentities(rows)[i] == identity;
      assert rows[i] in rows && rows[i].identity == identity;
    }
    forall row | row in rows && row.identity == identity
      ensures identity in Elements(RowIdentities(rows)) && Paired(rows)[key][backend] == row.passed
    {
      var i :| 0 <= i < |rows| && rows[i] == row;
      assert RowIdentities(rows)[i] == identity;
    }
  }

  /** paired_outcomes. */
  method PairedOutcomes(rows: seq<Row>) returns (r: Result<Counts, Error>)
    ensures r.Ok? <==> Distinct(RowIdentities(rows))
    ensures r.Ok? ==> Counted(Paired(rows), r.value)
  {
    hide Distinct, RowIdentities, Elements, OutcomeOf;
    var pairs: Pairs := map[];
    NoRowIdentities();
    assert Distinct(RowIdentities([])) by { NoRowsAreDistinct(); }
    assert rows[..0] == [];
    for i := 0 to |rows|
      invariant Distinct(RowIdentities(rows[..i])) && pairs == Paired(rows[..i])
    {
      var row := rows[i];
      RowsExtended(rows[..i], row);
      PairsHoldRows(rows[..i]);
      assert rows[..i + 1] == rows[..i] + [row];
      assert rows[..i + 1][..i] == rows[..i];
      var pair := PairAt(pairs, Key(row));
      if row.identity.backend in pair {
        assert Holds(pairs, row.identity);
        RepeatedPrefix(rows, i + 1);
        return Err(DuplicatePaired);
      }
      pairs := pairs[Key(row) := pair[row.identity.backend := row.passed]];
    }
    assert rows[..|rows|] == rows;
    var counts := Tally(pairs);
    r := Ok(counts);
  }

  lemma NoRowsAreDistinct()
    ensures Distinct(RowIdentities([]))
  {
  }

  lemma {:induction false} RepeatedPrefix(rows: seq<Row>, i: nat)
    requires i <= |rows| && !Distinct(RowIdentities(rows[..i]))
    ensures !Distinct(RowIdentities(rows))
    decreases |rows| - i
  {
    hide Distinct, RowIdentities, Elements;
    if i == |rows| {
      assert rows[..i] == rows;
    } else {
      RowsExtended(rows[..i], rows[i]);
      assert rows[..i + 1] == rows[..i] + [rows[i]];
      RepeatedPrefix(rows, i + 1);
    }
  }

  function CountOne(counts: Counts, outcome: Outcome): Counts {
    match outcome
    case BothCorrect => counts.(bothCorrect := counts.bothCorrect + 1)
    case HaskellOnly => counts.(haskellOnly := counts.haskellOnly + 1)
    case JavascriptOnly => counts.(javascriptOnly := counts.javascriptOnly + 1)
    case NeitherCorrect => counts.(neitherCorrect := counts.neitherCorrect + 1)
    case Unpaired => counts.(unpaired := counts.unpaired + 1)
  }

  /** Counts the pairs one by one. */
  method Tally(pairs: Pairs) returns (counts: Counts)
    ensures Counted(pairs, counts)
  {
    hide OutcomeOf, Counted, CountOne;
    counts := Counts(0, 0, 0, 0, 0);
    var rest := pairs.Keys;
    ghost var done: Pairs := map[];
    assert Counted(done, counts) by { NothingCounted(); }
    while rest != {}
      invariant rest <= pairs.Keys && done == pairs - rest && Counted(done, counts)
      decreases rest
    {
      var key :| key in rest;
      TallyOne(done, counts, key, pairs[key]);
      counts := CountOne(counts, OutcomeOf(pairs[key]));
      rest := rest - {key};
      done := done[key := pairs[key]];
    }
    assert pairs - {} == pairs;
  }

  lemma NothingCounted()
    ensures Counted(map[], Counts(0, 0, 0, 0, 0))
  {
  }

  lemma TallyOne(pairs: Pairs, counts: Counts, key: (string, int), pair: Pair)
    requires key !in pairs && Counted(pairs, counts)
    ensures Counted(pairs[key := pair], CountOne(counts, OutcomeOf(pair)))
  {
    hide OutcomeOf;
    WithOneMore(pairs, key, pair, BothCorrect);
    WithOneMore(pairs, key, pair, HaskellOnly);
    WithOneMore(pairs, key, pair, JavascriptOnly);
    WithOneMore(pairs, key, pair, NeitherCorrect);
    WithOneMore(pairs, key, pair, Unpaired);
  }

  lemma WithOneMore(pairs: Pairs, key: (string, int), pair: Pair, outcome: Outcome)
    requires key !in pairs
    ensures |WithOutcome(pairs[key := pair], outcome)|
         == |WithOutcome(pairs, outcome)| + if outcome == OutcomeOf(pair) then 1 else 0
  {
    hide OutcomeOf;
    var added := if outcome == OutcomeOf(pair) then {key} else {};
    assert WithOutcome(pairs[key := pair], outcome) == WithOutcome(pairs, outcome) + added;
  }

  // ----- What the counts add up to -----

  function Passed(rows: seq<Row>, backend: string): seq<Row> {
    if rows == [] then []
    else
      var last := rows[|rows| - 1];
      Passed(rows[..|rows| - 1], backend) + if last.passed && last.identity.backend == backend then [last] else []
  }

  predicate PassedIn(pair: Pair, backend: string) {
    backend in pair && pair[backend]
  }

  function PassedKeys(pairs: Pairs, backend: string): set<(string, int)> {
    set key | key in pairs && PassedIn(pairs[key], backend)
  }

  lemma PassedKeysExtended(pairs: Pairs, row: Row, backend: string)
    requires !Holds(pairs, row.identity)
    ensures var more := pairs[Key(row) := PairAt(pairs, Key(row))[row.identity.backend := row.passed]];
            |PassedKeys(more, backend)|
            == |PassedKeys(pairs, backend)| + if row.passed && row.identity.backend == backend then 1 else 0
  {
    var more := pairs[Key(row) := PairAt(pairs, Key(row))[row.identity.backend := row.passed]];
    var added := if row.passed && row.identity.backend == backend then {Key(row)} else {};
    assert PassedKeys(more, backend) == PassedKeys(pairs, backend) + added;
  }

  lemma NoPassedKeys(backend: string)
    ensures PassedKeys(map[], backend) == {}
  {
  }

  lemma {:induction false} PassedRowsArePassedKeys(rows: seq<Row>, backend: string)
    requires Distinct(RowIdentities(rows))
    ensures |Passed(rows, backend)| == |PassedKeys(Paired(rows), backend)|
  {
    hide Distinct, RowIdentities, Elements, PassedKeys, Holds;
    if rows == [] {
      NoPassedKeys(backend);
    } else {
      var front, last := rows[..|rows| - 1], rows[|rows| - 1];
      assert rows == front + [last];
      RowsExtended(front, last);
      PairsHoldRows(front);
      PassedRowsArePassedKeys(front, backend);
      PassedKeysExtended(Paired(front), last, backend);
    }
  }

  lemma UnionSize<T>(a: set<T>, b: set<T>)
    requires a !! b
    ensures |a + b| == |a| + |b|
  {
  }

  lemma FiveParts<T>(whole: set<T>, a: set<T>, b: set<T>, c: set<T>, d: set<T>, e: set<T>)
    requires a !! b !! c !! d !! e
    requires a <= whole && b <= whole && c <= whole && d <= whole && e <= whole
    requires forall x :: x in whole ==> x in a || x in b || x in c || x in d || x in e
    ensures |whole| == |a| + |b| + |c| + |d| + |e|
  {
    UnionSize(a, b);
    UnionSize(a + b, c);
    UnionSize(a + b + c, d);
    UnionSize(a + b + c + d, e);
    assert whole == a + b + c + d + e;
  }

  /** Every pair has one outcome. */
  lemma CountsAddUp(pairs: Pairs, counts: Counts)
    requires Counted(pairs, counts)
    ensures counts.bothCorrect + counts.haskellOnly + counts.javascriptOnly + counts.neitherCorrect + counts.unpaired
         == |pairs|
  {
    hide OutcomeOf;
    var a, b := WithOutcome(pairs, BothCorrect), WithOutcome(pairs, HaskellOnly);
    var c, d, e := WithOutcome(pairs, JavascriptOnly), WithOutcome(pairs, NeitherCorrect), WithOutcome(pairs, Unpaired);
    forall key | key in pairs
      ensures key in a || key in b || key in c || key in d || key in e
    {
      assert OutcomeOf(pairs[key]) in {BothCorrect, HaskellOnly, JavascriptOnly, NeitherCorrect, Unpaired};
    }
    FiveParts(pairs.Keys, a, b, c, d, e);
  }

  lemma OutcomeMeans(pair: Pair)
    requires OutcomeOf(pair) != Unpaired
    ensures PassedIn(pair, HASKELL) <==> OutcomeOf(pair) == BothCorrect || OutcomeOf(pair) == HaskellOnly
    ensures PassedIn(pair, JAVASCRIPT) <==> OutcomeOf(pair) == BothCorrect || OutcomeOf(pair) == JavascriptOnly
  {
    assert HASKELL in BACKENDS && JAVASCRIPT in BACKENDS;
  }

  lemma PassedKeysSplit(pairs: Pairs)
    requires WithOutcome(pairs, Unpaired) == {}
    ensures PassedKeys(pairs, HASKELL) == WithOutcome(pairs, BothCorrect) + WithOutcome(pairs, HaskellOnly)
    ensures PassedKeys(pairs, JAVASCRIPT) == WithOutcome(pairs, BothCorrect) + WithOutcome(pairs, JavascriptOnly)
  {
    hide OutcomeOf;
    forall key | key in pairs
      ensures PassedIn(pairs[key], HASKELL) <==>
        OutcomeOf(pairs[key]) == BothCorrect || OutcomeOf(pairs[key]) == HaskellOnly
      ensures PassedIn(pairs[key], JAVASCRIPT) <==>
        OutcomeOf(pairs[key]) == BothCorrect || OutcomeOf(pairs[key]) == JavascriptOnly
    {
      assert key !in WithOutcome(pairs, Unpaired);
      OutcomeMeans(pairs[key]);
    }
  }

  /** Among complete pairs, each backend's passes are split by the other's. */
  lemma PassesAddUp(pairs: Pairs, counts: Counts)
    requires Counted(pairs, counts) && WithOutcome(pairs, Unpaired) == {}
    ensures counts.bothCorrect + counts.haskellOnly == |PassedKeys(pairs, HASKELL)|
    ensures counts.bothCorrect + counts.javascriptOnly == |PassedKeys(pairs, JAVASCRIPT)|
  {
    hide OutcomeOf, PassedKeys;
    PassedKeysSplit(pairs);
    var both := WithOutcome(pairs, BothCorrect);
    var haskell, javascript := WithOutcome(pairs, HaskellOnly), WithOutcome(pairs, JavascriptOnly);
    UnionSize(both, haskell);
    UnionSize(both, javascript);
  }

  // ----- From the schedule to the summary -----

  function Grid(tasks: set<string>, trials: set<int>): set<(string, int)> {
    set task, trial | task in tasks && trial in trials :: (task, trial)
  }

  lemma {:induction false} GridSize(tasks: set<string>, trials: set<int>)
    ensures |Grid(tasks, trials)| == |tasks| * |trials|
    decreases |tasks|
  {
    if tasks == {} {
      assert Grid(tasks, trials) == {};
    } else {
      var task :| task in tasks;
      var left := tasks - {task};
      GridSize(left, trials);
      RowSize(task, trials);
      UnionSize(Grid(left, trials), Grid({task}, trials));
      assert Grid(tasks, trials) == Grid(left, trials) + Grid({task}, trials);
      assert |tasks| == |left| + 1;
      assert |left| * |trials| + |trials| == (|left| + 1) * |trials|;
    }
  }

  lemma AnyTrial(trials: set<int>) returns (trial: int)
    requires trials != {}
    ensures trial in trials
  {
    assert (forall t :: t !in trials) ==> trials == {};
    trial :| trial in trials;
  }

  lemma {:induction false} RowSize(task: string, trials: set<int>)
    ensures |Grid({task}, trials)| == |trials|
    decreases |trials|
  {
    assert Grid({task}, {}) == {};
    if trials != {} {
      var trial := AnyTrial(trials);
      RowSize(task, trials - {trial});
      assert Grid({task}, trials) == Grid({task}, trials - {trial}) + {(task, trial)};
    }
  }

  /** Rows over a whole grid of tasks and trials, with both backends each. */
  predicate Complete(rows: seq<Row>, tasks: set<string>, trials: set<int>) {
    Distinct(RowIdentities(rows)) && Elements(RowIdentities(rows)) == Expected(tasks, trials)
  }

  lemma CompletePairs(rows: seq<Row>, tasks: set<string>, trials: set<int>)
    requires Complete(rows, tasks, trials)
    ensures Paired(rows).Keys == Grid(tasks, trials)
    ensures WithOutcome(Paired(rows), Unpaired) == {}
  {
    hide Distinct, RowIdentities;
    var pairs := Paired(rows);
    PairsHoldRows(rows);
    PairsAreNotEmpty(rows);
    forall key: (string, int) ensures key in pairs <==> key in Grid(tasks, trials) {
      PairIsComplete(pairs, rows, tasks, trials, key.0, key.1);
    }
    forall key | key in pairs ensures OutcomeOf(pairs[key]) != Unpaired {
      PairIsComplete(pairs, rows, tasks, trials, key.0, key.1);
    }
  }

  lemma PairIsComplete(
    pairs: Pairs, rows: seq<Row>, tasks: set<string>, trials: set<int>, task: string, trial: int)
    requires NoEmptyPairs(pairs)
    requires forall identity :: identity in Elements(RowIdentities(rows)) <==> Holds(pairs, identity)
    requires Elements(RowIdentities(rows)) == Expected(tasks, trials)
    ensures (task, trial) in pairs <==> (task, trial) in Grid(tasks, trials)
    ensures (task, trial) in pairs ==> pairs[(task, trial)].Keys == BACKENDS
  {
    hide RowIdentities, Elements;
    var pair := PairAt(pairs, (task, trial));
    forall backend
      ensures backend in pair <==> (task, trial) in Grid(tasks, trials) && backend in BACKENDS
    {
      var identity := Identity(task, backend, trial);
      assert Holds(pairs, identity) <==> identity in Expected(tasks, trials);
    }
    if (task, trial) in pairs {
      var backend :| backend in pair;
      assert pair.Keys == BACKENDS;
    } else {
      assert HASKELL !in pair && HASKELL in BACKENDS;
    }
  }

  /** Complete rows leave no pair open: the other four counts cover the grid, and
      add up to the rows that passed, backend by backend. */
  lemma CompleteRowsAddUp(rows: seq<Row>, tasks: set<string>, trials: set<int>, counts: Counts)
    requires Complete(rows, tasks, trials) && Counted(Paired(rows), counts)
    ensures counts.unpaired == 0
    ensures counts.bothCorrect + counts.haskellOnly + counts.javascriptOnly + counts.neitherCorrect
         == |tasks| * |trials|
    ensures counts.bothCorrect + counts.haskellOnly == |Passed(rows, HASKELL)|
    ensures counts.bothCorrect + counts.javascriptOnly == |Passed(rows, JAVASCRIPT)|
  {
    hide Distinct, RowIdentities, Elements, OutcomeOf;
    CompletePairs(rows, tasks, trials);
    GridSize(tasks, trials);
    CountsAddUp(Paired(rows), counts);
    PassesAddUp(Paired(rows), counts);
    PassedRowsArePassedKeys(rows, HASKELL);
    PassedRowsArePassedKeys(rows, JAVASCRIPT);
    assert |Paired(rows)| == |Paired(rows).Keys|;
  }

  function AllPassed(rows: seq<Row>): seq<Row> {
    if rows == [] then []
    else AllPassed(rows[..|rows| - 1]) + if rows[|rows| - 1].passed then [rows[|rows| - 1]] else []
  }

  lemma {:induction false} PassedByBackend(rows: seq<Row>)
    requires forall row :: row in rows ==> row.identity.backend in BACKENDS
    ensures |AllPassed(rows)| == |Passed(rows, HASKELL)| + |Passed(rows, JAVASCRIPT)|
  {
    if rows != [] {
      assert rows[|rows| - 1] in rows;
      assert HASKELL[0] != JAVASCRIPT[0];
      PassedByBackend(rows[..|rows| - 1]);
    }
  }

  lemma {:induction false} UpToSize(trials: nat)
    ensures |UpTo(trials)| == trials
    decreases trials
  {
    if trials > 0 { UpToSize(trials - 1); }
  }

  lemma TaskCount(fulfillment: bool)
    ensures |ExpectedTasks(fulfillment)| == |Tasks(fulfillment)|
  {
    assert |{"data-summary"}| == 1;
    assert |{"data-summary", "tree-audit"}| == 2;
    assert |{"data-summary", "tree-audit", "paginated-analytics"}| == 3;
    assert |PROTOCOL_TASKS| == 4;
  }

  lemma LoadedRowsAreComplete(files: seq<ResultFile>, tasks: set<string>, trials: int, rows: seq<Row>)
    requires Acceptable(files, Some(trials), Some(tasks)) && RowsOf(files, rows)
    ensures Complete(rows, tasks, UpTo(trials))
  {
    assert RowIdentities(rows) == FileIdentities(files);
  }

  /** Accepted results of an evaluation, counted: nothing is unpaired, the four
      other counts cover every task and trial, and the passes add up. */
  lemma ScheduleToSummary(files: seq<ResultFile>, fulfillment: bool, trials: nat, rows: seq<Row>, counts: Counts)
    requires Acceptable(files, Some(trials), Some(ExpectedTasks(fulfillment))) && RowsOf(files, rows)
    requires Counted(Paired(rows), counts)
    ensures counts.unpaired == 0
    ensures counts.bothCorrect + counts.haskellOnly + counts.javascriptOnly + counts.neitherCorrect
         == |Tasks(fulfillment)| * trials
    ensures 2 * counts.bothCorrect + counts.haskellOnly + counts.javascriptOnly == |AllPassed(rows)|
  {
    hide Acceptable, RowsOf, Counted, Tasks, ExpectedTasks, UpTo, Distinct, Paired;
    var tasks := ExpectedTasks(fulfillment);
    LoadedRowsAreComplete(files, tasks, trials, rows);
    CompleteRowsAddUp(rows, tasks, UpTo(trials), counts);
    UpToSize(trials);
    TaskCount(fulfillment);
    forall row | row in rows ensures row.identity.backend in BACKENDS {
      var i :| 0 <= i < |rows| && rows[i] == row;
      assert RowIdentities(rows)[i] in Elements(RowIdentities(rows));
    }
    PassedByBackend(rows);
  }

  // ----- One task at a time -----

  function OfTask(rows: seq<Row>, task: string): seq<Row> {
    if rows == [] then []
    else OfTask(rows[..|rows| - 1], task) + if rows[|rows| - 1].identity.task == task then [rows[|rows| - 1]] else []
  }

  function OnlyTask(identities: set<Identity>, task: string): set<Identity> {
    set identity | identity in identities && identity.task == task
  }

  lemma {:induction false} OfTaskHolds(rows: seq<Row>, task: string)
    requires Distinct(RowIdentities(rows))
    ensures Distinct(RowIdentities(OfTask(rows, task)))
    ensures Elements(RowIdentities(OfTask(rows, task))) == OnlyTask(Elements(RowIdentities(rows)), task)
  {
    hide Distinct, RowIdentities, Elements;
    if rows == [] {
      NoRowIdentities();
    } else {
      var front, last := rows[..|rows| - 1], rows[|rows| - 1];
      assert rows == front + [last];
      RowsExtended(front, last);
      OfTaskHolds(front, task);
      RowsExtended(OfTask(front, task), last);
      if last.identity.task != task { assert OfTask(front, task) + [] == OfTask(front, task); }
    }
  }

  /** The same sums hold for each task's rows alone, over its trials. */
  lemma TaskToSummary(
    files: seq<ResultFile>, tasks: set<string>, trials: nat, rows: seq<Row>, task: string, counts: Counts)
    requires Acceptable(files, Some(trials), Some(tasks)) && RowsOf(files, rows) && task in tasks
    requires Counted(Paired(OfTask(rows, task)), counts)
    ensures counts.unpaired == 0
    ensures counts.bothCorrect + counts.haskellOnly + counts.javascriptOnly + counts.neitherCorrect == trials
    ensures counts.bothCorrect + counts.haskellOnly == |Passed(OfTask(rows, task), HASKELL)|
    ensures counts.bothCorrect + counts.javascriptOnly == |Passed(OfTask(rows, task), JAVASCRIPT)|
  {
    hide Acceptable, RowsOf, Counted, UpTo, Distinct, Paired, Passed, OfTask, RowIdentities, Elements;
    LoadedRowsAreComplete(files, tasks, trials, rows);
    OfTaskHolds(rows, task);
    assert OnlyTask(Expected(tasks, UpTo(trials)), task) == Expected({task}, UpTo(trials));
    CompleteRowsAddUp(OfTask(rows, task), {task}, UpTo(trials), counts);
    UpToSize(trials);
  }
}
