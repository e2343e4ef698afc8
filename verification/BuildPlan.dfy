/** Which units of a build plan the evaluation loads from source, and which
    installed packages it links against. */
module BuildPlan {
  import opened Wrappers

  /** One entry of the install plan; absent keys are None. */
  datatype Entry = Entry(
    id: string,
    package: Option<string>,
    component: Option<string>,
    style: Option<string>,
    depends: Option<seq<string>>)
  {
    predicate Local() { style == Some("local") }

    function Depends(): seq<string> { if depends.Some? then depends.value else [] }
  }

  type Plan = seq<Entry>

  function Ids(units: Plan): set<string> {
    set p | p in units :: p.id
  }

  function Needed(units: Plan): set<string> {
    set p, d | p in units && d in p.Depends() :: d
  }

  function Select(plan: Plan, keep: Entry -> bool): (r: Plan)
    ensures forall p :: p in r <==> p in plan && keep(p)
  {
    if plan == [] then []
    else (if keep(plan[0]) then [plan[0]] else []) + Select(plan[1..], keep)
  }

  // ----- Reachability -----

  predicate Edge(plan: Plan, x: string, y: string) {
    exists p :: p in plan && p.id == x && y in p.Depends()
  }

  predicate Path(plan: Plan, path: seq<string>) {
    path != [] && forall i :: 0 < i < |path| ==> Edge(plan, path[i - 1], path[i])
  }

  ghost predicate Reaches(plan: Plan, start: set<string>, x: string) {
    exists path :: Path(plan, path) && path[0] in start && path[|path| - 1] == x
  }

  /** Exactly what the start reaches. */
  ghost predicate Spans(plan: Plan, start: set<string>, reachable: set<string>) {
    forall x :: x in reachable <==> Reaches(plan, start, x)
  }

  function Expand(plan: Plan, reachable: set<string>): set<string> {
    reachable + set p, d | p in plan && p.id in reachable && d in p.Depends() :: d
  }

  lemma ReachesOneMore(plan: Plan, start: set<string>, x: string, y: string)
    requires Reaches(plan, start, x) && Edge(plan, x, y)
    ensures Reaches(plan, start, y)
  {
    var path :| Path(plan, path) && path[0] in start && path[|path| - 1] == x;
    assert Path(plan, path + [y]);
  }

  /** A set that one expansion leaves alone holds every path that begins in it. */
  lemma {:induction false} ClosedHoldsPaths(plan: Plan, closed: set<string>, path: seq<string>)
    requires Expand(plan, closed) == closed
    requires Path(plan, path) && path[0] in closed
    ensures forall x :: x in path ==> x in closed
  {
    if |path| > 1 {
      var shorter := path[..|path| - 1];
      assert Path(plan, shorter);
      ClosedHoldsPaths(plan, closed, shorter);
      assert Edge(plan, path[|path| - 2], path[|path| - 1]);
      assert path == shorter + [path[|path| - 1]];
      assert path[|path| - 2] in shorter;
      assert path[|path| - 1] in Expand(plan, closed);
    }
  }

  /** The first loop: everything the wanted units reach, and nothing else. */
  method Reachable(plan: Plan, start: set<string>) returns (reachable: set<string>)
    ensures Expand(plan, reachable) == reachable
    ensures Spans(plan, start, reachable)
  {
    ghost var universe := start + Needed(plan);
    reachable := start;
    forall x | x in start ensures Reaches(plan, start, x) {
      assert Path(plan, [x]);
    }
    while true
      invariant start <= reachable <= universe
      invariant forall x | x in reachable :: Reaches(plan, start, x)
      decreases |universe - reachable|
    {
      var expanded := Expand(plan, reachable);
      if expanded == reachable { break; }
      forall y | y in expanded - reachable ensures Reaches(plan, start, y) {
        var p :| p in plan && p.id in reachable && y in p.Depends();
        assert Edge(plan, p.id, y);
        ReachesOneMore(plan, start, p.id, y);
      }
      assert expanded <= universe && universe - expanded < universe - reachable;
      SmallerSet(universe - expanded, universe - reachable);
      reachable := expanded;
    }
    forall x | Reaches(plan, start, x) ensures x in reachable {
      var path :| Path(plan, path) && path[0] in start && path[|path| - 1] == x;
      ClosedHoldsPaths(plan, reachable, path);
    }
  }

  lemma SmallerSet<T>(a: set<T>, b: set<T>)
    requires a < b
    ensures |a| < |b|
  {
    assert b == a + (b - a);
  }

  // ----- Units to load from source -----

  /** Why a reachable local entry cannot stay an installed package: it is needed
      and was never registered, or it was built against a source-loaded unit. */
  predicate Forced(p: Entry, units: Plan, reachable: set<string>, registered: set<string>) {
    && p.id in reachable && p.Local()
    && ((p.id in Needed(units) && p.id !in registered) || exists d :: d in p.Depends() && d in Ids(units))
  }

  /** A choice of source units that leaves nothing forced outside it. */
  predicate Closed(plan: Plan, units: Plan, reachable: set<string>, registered: set<string>) {
    forall p :: p in plan && Forced(p, units, reachable, registered) ==> p in units
  }

  predicate Within(a: Plan, b: Plan) {
    forall p :: p in a ==> p in b
  }

  lemma ForcedIsMonotone(p: Entry, a: Plan, b: Plan, reachable: set<string>, registered: set<string>)
    requires Within(a, b) && Forced(p, a, reachable, registered)
    ensures Forced(p, b, reachable, registered)
  {
    if p.id in Needed(a) && p.id !in registered {
      assert p.id in Needed(b);
    } else {
      var d :| d in p.Depends() && d in Ids(a);
      assert d in Ids(b);
    }
  }

  /** The least closed choice that contains the wanted units. */
  ghost predicate Least(plan: Plan, wanted: Plan, units: Plan, reachable: set<string>, registered: set<string>) {
    && Within(wanted, units) && Within(units, plan) && Closed(plan, units, reachable, registered)
    && forall other: Plan ::
         Within(wanted, other) && Closed(plan, other, reachable, registered) ==> Within(units, other)
  }

  predicate AllDepend(units: Plan) {
    forall p :: p in units ==> p.depends.Some?
  }

  /** The second loop.  It fails, with a missing key, exactly when the least
      closed choice holds a unit without dependencies. */
  method SourceUnits(plan: Plan, wanted: Plan, reachable: set<string>, registered: set<string>)
    returns (r: Result<Plan, string>)
    requires Within(wanted, plan)
    ensures r.Ok? ==> Least(plan, wanted, r.value, reachable, registered) && AllDepend(r.value)
    ensures r.Ok? ==> wanted <= r.value
    ensures r.Err? ==>
      forall other: Plan :: Within(wanted, other) && Closed(plan, other, reachable, registered) ==> !AllDepend(other)
  {
    var units := wanted;
    ghost var entries := set p | p in plan;
    while true
      invariant wanted <= units && Within(units, plan)
      invariant forall other: Plan ::
        Within(wanted, other) && Closed(plan, other, reachable, registered) ==> Within(units, other)
      decreases |entries - set p | p in units|
    {
      if exists p :: p in units && p.depends.None? {
        return Err("KeyError: 'depends'");
      }
      var missing := Select(plan, p => p !in units && Forced(p, units, reachable, registered));
      if missing == [] { break; }
      ghost var before := entries - set p | p in units;
      ghost var after := entries - set p | p in units + missing;
      assert after < before by {
        assert missing[0] in missing;
        assert missing[0] in before && missing[0] !in after;
      }
      SmallerSet(after, before);
      forall other: Plan | Within(wanted, other) && Closed(plan, other, reachable, registered)
        ensures Within(units + missing, other)
      {
        forall p | p in missing ensures p in other {
          ForcedIsMonotone(p, units, other, reachable, registered);
        }
      }
      units := units + missing;
    }
    r := Ok(units);
  }

  // ----- The interpreter's arguments -----

  datatype Load = Load(units: Plan, packages: set<string>)

  /** What a loading decision must satisfy. */
  ghost predicate Decided(plan: Plan, wanted: Plan, registered: set<string>, load: Load) {
    && (exists reachable: set<string> ::
         && Spans(plan, Ids(wanted), reachable)
         && Least(plan, wanted, load.units, reachable, registered))
    && load.packages == Needed(load.units) - Ids(load.units)
  }

  const PACKAGES: set<string> := {"agent-cli", "agent-core", "agent-tools", "agent-openai", "agent-mcp", "agent-tui"}

  predicate Wanted(p: Entry) {
    p.package.Some? && p.package.value in PACKAGES && p.component == Some("lib")
  }

  method Decide(plan: Plan, registered: set<string>) returns (r: Result<Load, string>)
    ensures r.Ok? ==> Decided(plan, Select(plan, Wanted), registered, r.value)
    ensures r.Ok? ==> AllDepend(r.value.units)
    ensures r.Err? ==>
      forall load :: Decided(plan, Select(plan, Wanted), registered, load) ==> !AllDepend(load.units)
  {
    var wanted := Select(plan, Wanted);
    var reachable := Reachable(plan, Ids(wanted));
    var units := SourceUnits(plan, wanted, reachable, registered);
    forall load | Decided(plan, wanted, registered, load) && units.Err? ensures !AllDepend(load.units) {
      var other: set<string> :| Spans(plan, Ids(wanted), other) && Least(plan, wanted, load.units, other, registered);
      assert forall x :: x in other <==> Reaches(plan, Ids(wanted), x);
      assert other == reachable;
    }
    if units.Err? { return Err(units.error); }
    var needed := Needed(units.value);
    r := Ok(Load(units.value, needed - Ids(units.value)));
  }

  predicate IsLibraryOf(p: Entry, package: string) {
    p.package == Some(package) && p.component == Some("lib")
  }

  /** The six libraries whose units are always loaded from source. */
  predicate IsInterpreted(p: Entry) {
    || IsLibraryOf(p, "agent-cli") || IsLibraryOf(p, "agent-core") || IsLibraryOf(p, "agent-tools")
    || IsLibraryOf(p, "agent-openai") || IsLibraryOf(p, "agent-mcp") || IsLibraryOf(p, "agent-tui")
  }

  /** A local unit that a source unit needs without its being registered, or that
      is built against a source unit. */
  predicate IsDrawnIn(p: Entry, units: Plan, registered: set<string>) {
    && p.style == Some("local")
    && (|| (p.id !in registered && exists u :: u in units && p.id in u.Depends())
        || exists u :: u in units && u.id in p.Depends())
  }

  lemma ForcedSpelledOut(p: Entry, units: Plan, reachable: set<string>, registered: set<string>)
    ensures Forced(p, units, reachable, registered) <==> p.id in reachable && IsDrawnIn(p, units, registered)
  {
    if u :| u in units && u.id in p.Depends() { assert u.id in Ids(units); }
    if u :| u in units && p.id in u.Depends() { assert p.id in Needed(units); }
  }

  /** Nothing is in the least choice without a reason. */
  lemma LeastHasReasons(plan: Plan, wanted: Plan, units: Plan, reachable: set<string>, registered: set<string>)
    requires Least(plan, wanted, units, reachable, registered)
    ensures forall p :: p in units <==> p in wanted || (p in plan && Forced(p, units, reachable, registered))
  {
    var reasons := Select(units, (p: Entry) => p in wanted || Forced(p, units, reachable, registered));
    forall p | p in plan && Forced(p, reasons, reachable, registered) ensures p in reasons {
      ForcedIsMonotone(p, reasons, units, reachable, registered);
    }
    assert Within(units, reasons);
  }

  /** The units loaded from source are exactly the plan's units of the six
      libraries, and those these reach and source units draw in. */
  lemma SourceUnitsSpelledOut(plan: Plan, registered: set<string>, load: Load, p: Entry)
    requires Decided(plan, Select(plan, Wanted), registered, load)
    ensures p in load.units <==>
      && p in plan
      && (|| IsInterpreted(p)
          || (Reaches(plan, Ids(Select(plan, Wanted)), p.id) && IsDrawnIn(p, load.units, registered)))
  {
    hide Spans, Reaches, Least, Forced, IsDrawnIn, IsInterpreted, Wanted;
    var wanted := Select(plan, Wanted);
    var reachable: set<string> :|
      && Spans(plan, Ids(wanted), reachable)
      && Least(plan, wanted, load.units, reachable, registered);
    SpansReached(plan, Ids(wanted), reachable, p.id);
    WantedSpelledOut(p);
    LeastHasReasons(plan, wanted, load.units, reachable, registered);
    ForcedSpelledOut(p, load.units, reachable, registered);
  }

  lemma SpansReached(plan: Plan, start: set<string>, reachable: set<string>, id: string)
    requires Spans(plan, start, reachable)
    ensures id in reachable <==> Reaches(plan, start, id)
  {
  }

  lemma WantedSpelledOut(p: Entry)
    ensures Wanted(p) <==> IsInterpreted(p)
  {
  }

  /** Units each depending on the next. */
  predicate Chain(plan: Plan, chain: seq<Entry>) {
    && chain != [] && (forall p :: p in chain ==> p in plan && p.Local())
    && forall i :: 0 < i < |chain| ==> chain[i].id in chain[i - 1].Depends()
  }

  lemma ReachableDependencies(plan: Plan, start: set<string>, p: Entry)
    requires p in plan && Reaches(plan, start, p.id)
    ensures forall d :: d in p.Depends() ==> Reaches(plan, start, d)
  {
    forall d | d in p.Depends() ensures Reaches(plan, start, d) {
      assert Edge(plan, p.id, d);
      ReachesOneMore(plan, start, p.id, d);
    }
  }

  /** Source units are reached, so whatever they need is. */
  lemma {:induction false} SourceUnitsAreReached(plan: Plan, wanted: Plan, registered: set<string>, load: Load)
    requires Decided(plan, wanted, registered, load)
    ensures forall p :: p in load.units ==> Reaches(plan, Ids(wanted), p.id)
  {
    var start := Ids(wanted);
    var reachable: set<string> :|
      && Spans(plan, start, reachable)
      && Least(plan, wanted, load.units, reachable, registered);
    var reached := Select(load.units, (p: Entry) => p.id in reachable);
    forall p | p in wanted ensures p in reached {
      assert Path(plan, [p.id]);
      assert Reaches(plan, start, p.id);
    }
    forall p | p in plan && Forced(p, reached, reachable, registered) ensures p in reached {
      ForcedIsMonotone(p, reached, load.units, reachable, registered);
    }
    assert Within(load.units, reached);
  }

  /** No chain of local units leads from an installed package that is linked to
      a unit that is loaded from source: no type has two identities. */
  lemma {:induction false} NoInstalledPackageReachesSource(
    plan: Plan, wanted: Plan, registered: set<string>, load: Load, chain: seq<Entry>)
    requires Decided(plan, wanted, registered, load)
    requires Chain(plan, chain) && chain[0].id in load.packages
    ensures forall p, d :: p in chain && d in p.Depends() ==> d !in Ids(load.units)
    ensures forall p :: p in chain ==> p.id !in Ids(load.units)
  {
    SourceUnitsAreReached(plan, wanted, registered, load);
    var start := Ids(wanted);
    var owner :| owner in load.units && chain[0].id in owner.Depends();
    ReachableDependencies(plan, start, owner);
    ChainIsReached(plan, start, chain);
    if exists i :: 0 <= i < |chain| && chain[i].id in Ids(load.units) {
      var i :| 0 <= i < |chain| && chain[i].id in Ids(load.units);
      SourceSpreadsUp(plan, wanted, registered, load, chain, i);
      assert false;
    }
    forall i, d | 0 <= i < |chain| && d in chain[i].Depends() && d in Ids(load.units) ensures false {
      Absorbs(plan, wanted, registered, load, chain[i], d);
    }
  }

  lemma {:induction false} ChainIsReached(plan: Plan, start: set<string>, chain: seq<Entry>)
    requires Chain(plan, chain) && Reaches(plan, start, chain[0].id)
    ensures forall p :: p in chain ==> Reaches(plan, start, p.id)
    decreases |chain|
  {
    if |chain| > 1 {
      ReachableDependencies(plan, start, chain[0]);
      assert Chain(plan, chain[1..]);
      ChainIsReached(plan, start, chain[1..]);
      assert chain == [chain[0]] + chain[1..];
    }
  }

  /** A reached local entry built against a source unit is a source unit. */
  lemma Absorbs(plan: Plan, wanted: Plan, registered: set<string>, load: Load, p: Entry, d: string)
    requires Decided(plan, wanted, registered, load)
    requires p in plan && p.Local() && Reaches(plan, Ids(wanted), p.id)
    requires d in p.Depends() && d in Ids(load.units)
    ensures p in load.units
  {
    var reachable: set<string> :|
      && Spans(plan, Ids(wanted), reachable)
      && Least(plan, wanted, load.units, reachable, registered);
    assert Forced(p, load.units, reachable, registered);
  }

  lemma {:induction false} SourceSpreadsUp(
    plan: Plan, wanted: Plan, registered: set<string>, load: Load, chain: seq<Entry>, i: nat)
    requires Decided(plan, wanted, registered, load) && Chain(plan, chain)
    requires forall p :: p in chain ==> Reaches(plan, Ids(wanted), p.id)
    requires i < |chain| && chain[i].id in Ids(load.units)
    ensures chain[0].id in Ids(load.units)
  {
    if i > 0 {
      assert chain[i - 1] in chain;
      Absorbs(plan, wanted, registered, load, chain[i - 1], chain[i].id);
      SourceSpreadsUp(plan, wanted, registered, load, chain, i - 1);
    }
  }

  /** A local package passed by name is one that was registered. */
  lemma LinkedLocalPackagesAreRegistered(plan: Plan, wanted: Plan, registered: set<string>, load: Load, p: Entry)
    requires Decided(plan, wanted, registered, load)
    requires p in plan && p.Local() && p.id in load.packages
    ensures p.id in registered
  {
    SourceUnitsAreReached(plan, wanted, registered, load);
    var owner :| owner in load.units && p.id in owner.Depends();
    ReachableDependencies(plan, Ids(wanted), owner);
    var reachable: set<string> :|
      && Spans(plan, Ids(wanted), reachable)
      && Least(plan, wanted, load.units, reachable, registered);
    assert p.id !in registered ==> Forced(p, load.units, reachable, registered);
    assert p !in load.units;
  }

  /** The decision depends on the plan and the registrations alone. */
  lemma DecisionIsUnique(plan: Plan, wanted: Plan, registered: set<string>, a: Load, b: Load)
    requires Decided(plan, wanted, registered, a) && Decided(plan, wanted, registered, b)
    ensures (forall p :: p in a.units <==> p in b.units) && a.packages == b.packages
  {
    var start := Ids(wanted);
    var x: set<string> :| Spans(plan, start, x) && Least(plan, wanted, a.units, x, registered);
    var y: set<string> :| Spans(plan, start, y) && Least(plan, wanted, b.units, y, registered);
    assert x == y by {
      assert forall id :: id in x <==> Reaches(plan, start, id);
      assert forall id :: id in y <==> Reaches(plan, start, id);
    }
    assert Within(a.units, b.units) && Within(b.units, a.units);
    assert Ids(a.units) == Ids(b.units) && Needed(a.units) == Needed(b.units);
  }
}
