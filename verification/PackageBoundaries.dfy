/** The whole package check: named manifests, forbidden dependencies and imports,
    missing packages and cycles. */
module PackageBoundaries {
  import opened CabalStanzas
  import opened PackageGraph
  import opened Wrappers

  /** A Haskell file under src or, for a test, under test: its module name by
      path, and the modules it imports from Agent.Tools and from Agent.CLI or
      Agent.TUI. */
  datatype HaskellFile = HaskellFile(isTest: bool, moduleName: string, tools: set<string>, frontends: set<string>)

  /** A package description and its Haskell files; the name is None when no name
      field was found. */
  datatype Manifest = Manifest(name: Option<string>, lines: Lines, files: seq<HaskellFile>)

  datatype Problem =
    | Unnamed
    | Duplicate(name: string)
    | Forbidden(name: string, dependencies: set<string>)
    | Frontend(dependencies: set<string>)
    | CoreImports(imports: set<string>)
    | NativeImports(imports: set<string>)
    | NoPackages
    | Missing(name: string, dependencies: set<string>)
    | Cyclic(path: seq<string>)

  const FRONTENDS: set<string> := {"agent-cli", "agent-tui", "agent-cli-runtime"}
  const GUARDED: set<string> := {"agent-core", "agent-accounts", "agent-computer-use", "agent-tools", "agent-runtime"}

  function ForbiddenTo(name: string): set<string> {
    (if name in GUARDED then FRONTENDS else {}) + (if name == CORE then {"agent-tools"} else {})
  }

  const PREFIX: string := "agent-"
  const NATIVE_BRIDGE: string := "agent-native-bridge"
  const CORE: string := "agent-core"

  const CONTRACTS: set<string> := {
    "Agent.Tools.Types", "Agent.Tools.Scheduling", "Agent.Tools.Registration",
    "Agent.Tools.ResourceArbiter", "Agent.Tools.OutputArtifact.Memory"}

  /** The modules of the package's tests, or of its library. */
  function Modules(files: seq<HaskellFile>, tests: bool): set<string> {
    set f | f in files && f.isTest == tests :: f.moduleName
  }

  /** Concrete tools a core file imports: tests may also use modules of their own. */
  function ConcreteTools(files: seq<HaskellFile>, f: HaskellFile): set<string> {
    f.tools - CONTRACTS - if f.isTest then Modules(files, true) else {}
  }

  /** Frontend modules a native file imports that are not its own library's. */
  function ForeignFrontends(files: seq<HaskellFile>, f: HaskellFile): set<string> {
    if f.isTest then {} else f.frontends - Modules(files, false)
  }

  // ----- Requirements on a list of manifests -----

  predicate Named(manifests: seq<Manifest>) {
    && (forall m :: m in manifests ==> m.name.Some?)
    && forall i, j :: 0 <= i < j < |manifests| ==> manifests[i].name != manifests[j].name
  }

  function Packages(manifests: seq<Manifest>): set<string> {
    set m | m in manifests && m.name.Some? :: m.name.value
  }

  /** What one manifest may depend on, whatever the others are. */
  predicate Permitted(m: Manifest) {
    && m.name.Some?
    && Dependencies(m.lines) * ForbiddenTo(m.name.value) == {}
    && (m.name.value == NATIVE_BRIDGE ==> Dependencies(Filter(false, m.lines)) * FRONTENDS == {})
    && (m.name.value == CORE ==> forall f :: f in m.files ==> ConcreteTools(m.files, f) == {})
    && (m.name.value == NATIVE_BRIDGE ==> forall f :: f in m.files ==> ForeignFrontends(m.files, f) == {})
  }

  /** The complaint names what the manifest must not have. */
  predicate Offends(m: Manifest, problem: Problem) {
    match problem
    case Forbidden(name, bad) => bad != {} && m.name == Some(name) && bad == Dependencies(m.lines) * ForbiddenTo(name)
    case Frontend(bad) =>
      bad != {} && m.name == Some(NATIVE_BRIDGE) && bad == Dependencies(Filter(false, m.lines)) * FRONTENDS
    case CoreImports(bad) =>
      bad != {} && m.name == Some(CORE) && exists f :: f in m.files && bad == ConcreteTools(m.files, f)
    case NativeImports(bad) =>
      bad != {} && m.name == Some(NATIVE_BRIDGE) && exists f :: f in m.files && bad == ForeignFrontends(m.files, f)
    case _ => false
  }

  predicate IsLocal(dependency: string) {
    PREFIX <= dependency
  }

  function LocalNames(m: Manifest): set<string> {
    set d | d in Dependencies(m.lines) && IsLocal(d)
  }

  /** Every dependency that looks local is one of the names. */
  predicate Present(manifests: seq<Manifest>, names: set<string>) {
    forall m :: m in manifests ==> LocalNames(m) <= names
  }

  /** An edge: a package lists another one. */
  predicate DependsOn(manifests: seq<Manifest>, x: string, y: string) {
    x != y && y in Packages(manifests) && exists m :: m in manifests && m.name == Some(x) && y in Dependencies(m.lines)
  }

  /** A closed walk along dependencies. */
  predicate Loop(manifests: seq<Manifest>, path: seq<string>) {
    |path| >= 2 && path[0] == path[|path| - 1]
    && forall i :: 0 < i < |path| ==> DependsOn(manifests, path[i - 1], path[i])
  }

  ghost predicate Sound(manifests: seq<Manifest>) {
    && manifests != [] && Named(manifests)
    && (forall m :: m in manifests ==> Permitted(m)) && Present(manifests, Packages(manifests))
    && forall path :: !Loop(manifests, path)
  }

  // ----- The boundaries, written out -----

  predicate IsFrontend(package: string) {
    package == "agent-cli" || package == "agent-tui" || package == "agent-cli-runtime"
  }

  /** Below the frontends. */
  predicate IsBase(package: string) {
    || package == "agent-core" || package == "agent-accounts" || package == "agent-computer-use"
    || package == "agent-tools" || package == "agent-runtime"
  }

  predicate IsContract(moduleName: string) {
    || moduleName == "Agent.Tools.Types" || moduleName == "Agent.Tools.Scheduling"
    || moduleName == "Agent.Tools.Registration" || moduleName == "Agent.Tools.ResourceArbiter"
    || moduleName == "Agent.Tools.OutputArtifact.Memory"
  }

  /** What is demanded of each package: the five base packages do not depend on a
      frontend, the core does not depend on the tools and imports of them only
      contracts and, in its tests, modules of its tests; the ordinary stanzas of
      the native bridge do not depend on a frontend, and its library imports of
      one only modules of its own. */
  lemma BoundariesSpelledOut(m: Manifest)
    requires m.name.Some?
    ensures Permitted(m) <==>
      && (forall d :: d in Dependencies(m.lines) && IsFrontend(d) ==> !IsBase(m.name.value))
      && (m.name.value == "agent-core" ==> "agent-tools" !in Dependencies(m.lines))
      && (m.name.value == "agent-core" ==> forall f, x :: f in m.files && x in f.tools ==>
            IsContract(x) || (f.isTest && exists g :: g in m.files && g.isTest && g.moduleName == x))
      && (m.name.value == "agent-native-bridge" ==>
            forall d :: d in Dependencies(Filter(false, m.lines)) ==> !IsFrontend(d))
      && (m.name.value == "agent-native-bridge" ==> forall f, x :: f in m.files && !f.isTest && x in f.frontends ==>
            exists g :: g in m.files && !g.isTest && g.moduleName == x)
  {
    hide Dependencies, Filter, ForbiddenTo, ConcreteTools, ForeignFrontends;
    forall s: string
      ensures (IsFrontend(s) <==> s in FRONTENDS) && (IsBase(s) <==> s in GUARDED)
      ensures IsContract(s) <==> s in CONTRACTS
    {
    }
    DependenciesSpelledOut(m);
    ImportsSpelledOut(m);
    assert (Dependencies(Filter(false, m.lines)) * FRONTENDS == {}) <==>
      forall d :: d in Dependencies(Filter(false, m.lines)) ==> d !in FRONTENDS by {
      forall d ensures d in Dependencies(Filter(false, m.lines)) * FRONTENDS <==>
        d in Dependencies(Filter(false, m.lines)) && d in FRONTENDS {}
    }
    hide IsFrontend, IsBase, IsContract;
  }

  lemma DependenciesSpelledOut(m: Manifest)
    requires m.name.Some?
    ensures Dependencies(m.lines) * ForbiddenTo(m.name.value) == {} <==>
      && (forall d :: d in Dependencies(m.lines) && d in FRONTENDS ==> m.name.value !in GUARDED)
      && (m.name.value == "agent-core" ==> "agent-tools" !in Dependencies(m.lines))
  {
    hide Dependencies;
    var name, both := m.name.value, Dependencies(m.lines) * ForbiddenTo(m.name.value);
    forall d ensures d in both <==>
      && d in Dependencies(m.lines)
      && ((d in FRONTENDS && name in GUARDED) || (d == "agent-tools" && name == "agent-core"))
    {
    }
  }

  lemma ImportsSpelledOut(m: Manifest)
    ensures (forall f :: f in m.files ==> ConcreteTools(m.files, f) == {}) <==>
      forall f, x :: f in m.files && x in f.tools ==>
        x in CONTRACTS || (f.isTest && exists g :: g in m.files && g.isTest && g.moduleName == x)
    ensures (forall f :: f in m.files ==> ForeignFrontends(m.files, f) == {}) <==>
      forall f, x :: f in m.files && !f.isTest && x in f.frontends ==>
        exists g :: g in m.files && !g.isTest && g.moduleName == x
  {
    forall f | f in m.files
      ensures forall x :: x in ConcreteTools(m.files, f) <==>
        x in f.tools && x !in CONTRACTS && !(f.isTest && exists g :: g in m.files && g.isTest && g.moduleName == x)
      ensures forall x :: x in ForeignFrontends(m.files, f) <==>
        !f.isTest && x in f.frontends && !exists g :: g in m.files && !g.isTest && g.moduleName == x
    {
    }
  }

  /** A dependency whose name begins with agent- must be one of the packages. */
  lemma PresenceSpelledOut(manifests: seq<Manifest>)
    ensures Present(manifests, Packages(manifests)) <==>
      forall m, d :: m in manifests && d in Dependencies(m.lines) && "agent-" <= d ==>
        exists n :: n in manifests && n.name == Some(d)
  {
    hide Dependencies;
    if Present(manifests, Packages(manifests)) {
      forall m, d | m in manifests && d in Dependencies(m.lines) && "agent-" <= d
        ensures exists n :: n in manifests && n.name == Some(d)
      {
        assert d in LocalNames(m) && d in Packages(manifests);
      }
    } else {
      var m :| m in manifests && !(LocalNames(m) <= Packages(manifests));
      var d :| d in LocalNames(m) && d !in Packages(manifests);
      assert !exists n :: n in manifests && n.name == Some(d);
    }
  }

  /** The complaint is about something that is there. */
  predicate Real(manifests: seq<Manifest>, problem: Problem) {
    match problem
    case Unnamed => exists m :: m in manifests && m.name.None?
    case Duplicate(name) =>
      exists i, j :: 0 <= i < j < |manifests| && manifests[i].name == manifests[j].name == Some(name)
    case NoPackages => manifests == []
    case Missing(name, missing) =>
      missing != {}
      && exists m :: m in manifests && m.name == Some(name) && missing == LocalNames(m) - Packages(manifests)
    case Cyclic(path) => Loop(manifests, path)
    case _ => exists m :: m in manifests && Offends(m, problem)
  }

  // ----- The check -----

  /** The manifests table, after the manifests that were read. */
  function Catalog(manifests: seq<Manifest>): map<string, set<string>>
    requires forall m :: m in manifests ==> m.name.Some?
  {
    if manifests == [] then map[]
    else
      var last := manifests[|manifests| - 1];
      assert last in manifests;
      Catalog(manifests[..|manifests| - 1])[last.name.value := Dependencies(last.lines)]
  }

  lemma {:induction false} CatalogHolds(manifests: seq<Manifest>)
    requires Named(manifests)
    ensures Catalog(manifests).Keys == Packages(manifests)
    ensures forall m :: m in manifests ==> Catalog(manifests)[m.name.value] == Dependencies(m.lines)
  {
    if manifests != [] {
      var front, last := manifests[..|manifests| - 1], manifests[|manifests| - 1];
      assert manifests == front + [last];
      CatalogHolds(front);
    }
  }

  lemma EmptyTable(manifests: seq<Manifest>)
    requires Named(manifests)
    ensures Catalog(manifests) == map[] <==> manifests == []
  {
    CatalogHolds(manifests);
    if manifests != [] { assert manifests[0] in manifests; }
  }

  /** The graph holds the dependencies, among the names, of the manifests read. */
  predicate Built(graph: Graph, manifests: seq<Manifest>, names: set<string>) {
    && graph.Keys == Packages(manifests)
    && forall m :: m in manifests && m.name.Some? ==>
         m.name.value in graph && graph[m.name.value] == Dependencies(m.lines) * names - {m.name.value}
  }

  lemma BuildOne(graph: Graph, manifests: seq<Manifest>, i: nat, names: set<string>)
    requires Named(manifests) && i < |manifests| && manifests[i].name.Some? && Built(graph, manifests[..i], names)
    ensures var m := manifests[i];
            Built(graph[m.name.value := Dependencies(m.lines) * names - {m.name.value}], manifests[..i + 1], names)
  {
    assert manifests[..i + 1] == manifests[..i] + [manifests[i]];
    forall m | m in manifests[..i] ensures m.name != manifests[i].name {
      var j :| 0 <= j < i && manifests[..i][j] == m;
      assert manifests[j].name != manifests[i].name;
    }
  }

  /** The edges of the check's graph are the dependencies between packages. */
  lemma GraphIsDependency(manifests: seq<Manifest>, graph: Graph)
    requires Named(manifests) && Built(graph, manifests, Packages(manifests))
    ensures Whole(graph)
    ensures forall x, y :: Edge(graph, x, y) <==> DependsOn(manifests, x, y)
    ensures forall path :: Cycle(graph, path) <==> Loop(manifests, path)
  {
    forall x, y ensures Edge(graph, x, y) <==> DependsOn(manifests, x, y) {
      if x in graph {
        var m :| m in manifests && m.name == Some(x);
        forall n | n in manifests && n.name == Some(x) ensures n == m {
          var i :| 0 <= i < |manifests| && manifests[i] == m;
          var j :| 0 <= j < |manifests| && manifests[j] == n;
          assert manifests[i].name == manifests[j].name;
        }
      }
    }
  }

  /** A true complaint refuses the packages. */
  lemma RealMeansUnsound(manifests: seq<Manifest>, problem: Problem)
    requires Real(manifests, problem)
    ensures !Sound(manifests)
  {
    match problem
    case Missing(name, missing) =>
      var m :| m in manifests && m.name == Some(name) && missing == LocalNames(m) - Packages(manifests);
      assert !(LocalNames(m) <= Packages(manifests));
    case Unnamed =>
    case Duplicate(_) =>
    case NoPackages =>
    case Cyclic(_) =>
    case _ =>
      var m :| m in manifests && Offends(m, problem);
      assert !Permitted(m);
  }

  /** Why reading a manifest after others stops the check. */
  predicate Refused(m: Manifest, known: set<string>, problem: Problem) {
    match problem
    case Unnamed => m.name.None?
    case Duplicate(name) => m.name == Some(name) && name in known
    case _ => Offends(m, problem)
  }

  lemma RefusedIsReal(manifests: seq<Manifest>, i: nat, problem: Problem)
    requires i < |manifests| && Named(manifests[..i])
    requires Refused(manifests[i], Packages(manifests[..i]), problem)
    ensures Real(manifests, problem)
  {
    var m := manifests[i];
    assert m in manifests;
    if problem.Duplicate? {
      var n :| n in manifests[..i] && n.name == Some(problem.name);
      var j :| 0 <= j < i && manifests[..i][j] == n;
      assert manifests[j].name == manifests[i].name;
    }
  }

  lemma MissingIsReal(manifests: seq<Manifest>, m: Manifest)
    requires m in manifests && m.name.Some? && !(LocalNames(m) <= Packages(manifests))
    ensures Real(manifests, Missing(m.name.value, LocalNames(m) - Packages(manifests)))
  {
    var d :| d in LocalNames(m) && d !in Packages(manifests);
    assert d in LocalNames(m) - Packages(manifests);
  }

  lemma PresentOne(manifests: seq<Manifest>, i: nat, names: set<string>)
    requires i < |manifests| && Present(manifests[..i], names) && LocalNames(manifests[i]) <= names
    ensures Present(manifests[..i + 1], names)
  {
    assert manifests[..i + 1] == manifests[..i] + [manifests[i]];
  }

  class Checker {
    var manifests: map<string, set<string>>
    var graph: Graph

    constructor ()
      ensures manifests == map[] && graph == map[]
    {
      manifests, graph := map[], map[];
    }

    /** Reads one manifest into the table. */
    method Read(m: Manifest) returns (problem: Option<Problem>)
      modifies this`manifests
      ensures problem.None? ==>
        && Permitted(m) && m.name.value !in old(manifests)
        && manifests == old(manifests)[m.name.value := Dependencies(m.lines)]
      ensures problem.Some? ==> Refused(m, old(manifests).Keys, problem.value)
    {
      if m.name.None? { return Some(Unnamed); }
      var name := m.name.value;
      if name in manifests { return Some(Duplicate(name)); }
      manifests := manifests[name := Dependencies(m.lines)];
      problem := Inspect(m);
    }

    /** Looks for dependencies and imports that a package of this name must not have. */
    method Inspect(m: Manifest) returns (problem: Option<Problem>)
      requires m.name.Some?
      ensures problem.None? ==> Permitted(m)
      ensures problem.Some? ==> Offends(m, problem.value)
    {
      hide ForbiddenTo, Dependencies, Filter, ConcreteTools, ForeignFrontends;
      var name := m.name.value;
      if name == CORE {
        var concrete := FirstConcrete(m.files);
        if concrete != {} { return Some(CoreImports(concrete)); }
      }
      var bad := Dependencies(m.lines) * ForbiddenTo(name);
      if bad != {} { return Some(Forbidden(name, bad)); }
      if name == NATIVE_BRIDGE {
        var foreign := FirstForeign(m.files);
        if foreign != {} { return Some(NativeImports(foreign)); }
        var ordinary := Ordinary(m.lines);
        bad := Dependencies(ordinary) * FRONTENDS;
        if bad != {} { return Some(Frontend(bad)); }
      }
      problem := None;
    }

    /** The offending imports of some core file, or none. */
    method FirstConcrete(files: seq<HaskellFile>) returns (concrete: set<string>)
      ensures concrete == {} ==> forall f :: f in files ==> ConcreteTools(files, f) == {}
      ensures concrete != {} ==> exists f :: f in files && concrete == ConcreteTools(files, f)
    {
      hide ConcreteTools;
      for i := 0 to |files|
        invariant forall f :: f in files[..i] ==> ConcreteTools(files, f) == {}
      {
        concrete := ConcreteTools(files, files[i]);
        if concrete != {} { return; }
        assert files[..i + 1] == files[..i] + [files[i]];
      }
      assert files[..|files|] == files;
      concrete := {};
    }

    /** The offending imports of some native file, or none. */
    method FirstForeign(files: seq<HaskellFile>) returns (foreign: set<string>)
      ensures foreign == {} ==> forall f :: f in files ==> ForeignFrontends(files, f) == {}
      ensures foreign != {} ==> exists f :: f in files && foreign == ForeignFrontends(files, f)
    {
      hide ForeignFrontends;
      for i := 0 to |files|
        invariant forall f :: f in files[..i] ==> ForeignFrontends(files, f) == {}
      {
        foreign := ForeignFrontends(files, files[i]);
        if foreign != {} { return; }
        assert files[..i + 1] == files[..i] + [files[i]];
      }
      assert files[..|files|] == files;
      foreign := {};
    }

    /** Reads every manifest. */
    method ReadAll(all: seq<Manifest>) returns (problem: Option<Problem>)
      requires manifests == map[]
      modifies this`manifests
      ensures problem.None? ==> Named(all) && manifests == Catalog(all) && forall m :: m in all ==> Permitted(m)
      ensures problem.Some? ==> Real(all, problem.value)
    {
      hide Permitted, Refused, Real, Dependencies;
      for i := 0 to |all|
        invariant Named(all[..i]) && manifests == Catalog(all[..i])
        invariant forall m :: m in all[..i] ==> Permitted(m)
      {
        CatalogHolds(all[..i]);
        problem := Read(all[i]);
        if problem.Some? {
          RefusedIsReal(all, i, problem.value);
          return;
        }
        assert all[..i + 1] == all[..i] + [all[i]];
        assert all[..i + 1][..i] == all[..i];
        forall j | 0 <= j < i ensures all[j].name != all[i].name {
          assert all[..i][j] in all[..i];
        }
      }
      assert all[..|all|] == all;
      problem := None;
    }

    /** Enters one package of the table into the graph. */
    method Link(m: Manifest) returns (problem: Option<Problem>)
      requires m.name.Some? && m.name.value in manifests && manifests[m.name.value] == Dependencies(m.lines)
      modifies this`graph
      ensures problem.None? ==>
        && LocalNames(m) <= manifests.Keys
        && graph == old(graph)[m.name.value := Dependencies(m.lines) * manifests.Keys - {m.name.value}]
      ensures problem.Some? ==>
        !(LocalNames(m) <= manifests.Keys) && problem.value == Missing(m.name.value, LocalNames(m) - manifests.Keys)
    {
      var name, names := m.name.value, manifests.Keys;
      var dependencies := manifests[name];
      var missing := (set d | d in dependencies && IsLocal(d)) - names;
      assert missing == LocalNames(m) - names;
      assert LocalNames(m) <= names + missing;
      if missing != {} { return Some(Missing(name, missing)); }
      graph := graph[name := dependencies * names - {name}];
      problem := None;
    }

    /** Builds the graph of dependencies between the packages that were read. */
    method Build(all: seq<Manifest>) returns (problem: Option<Problem>)
      requires Named(all) && manifests == Catalog(all) && graph == map[]
      modifies this`graph
      ensures problem.None? ==>
        && Whole(graph) && graph.Keys == Packages(all)
        && (forall path :: Cycle(graph, path) <==> Loop(all, path))
        && Present(all, Packages(all))
      ensures problem.Some? ==> Real(all, problem.value)
    {
      CatalogHolds(all);
      var names := manifests.Keys;
      for i := 0 to |all|
        invariant Built(graph, all[..i], names)
        invariant Present(all[..i], names)
      {
        assert all[i] in all;
        ghost var before := graph;
        problem := Link(all[i]);
        if problem.Some? {
          MissingIsReal(all, all[i]);
          return;
        }
        BuildOne(before, all, i, names);
        PresentOne(all, i, names);
      }
      assert all[..|all|] == all;
      GraphIsDependency(all, graph);
      problem := None;
    }

    /** The check accepts exactly the sound lists of packages, and whatever it
        complains about is real. */
    method Check(all: seq<Manifest>) returns (r: Result<nat, Problem>)
      requires manifests == map[] && graph == map[]
      modifies this
      ensures r.Ok? <==> Sound(all)
      ensures r.Ok? ==> r.value == |Packages(all)|
      ensures r.Err? ==> Real(all, r.error)
    {
      var problem := ReadAll(all);
      if problem.None? && manifests == map[] {
        EmptyTable(all);
        problem := Some(NoPackages);
      }
      if problem.None? { problem := Build(all); }
      if problem.None? {
        var search := new Search(graph);
        var found := search.Run();
        if found.None? { return Ok(|graph|); }
        problem := Some(Cyclic(found.value));
      }
      RealMeansUnsound(all, problem.value);
      r := Err(problem.value);
    }
  }
}
