/** Cycle detection over the local package graph. */
module PackageGraph {
  import opened Sequences
  import opened Wrappers

  type Graph = map<string, set<string>>

  /** Every successor is a package of the graph. */
  predicate Whole(graph: Graph) {
    forall n :: n in graph ==> graph[n] <= graph.Keys
  }

  predicate Edge(graph: Graph, x: string, y: string) {
    x in graph && y in graph[x]
  }

  predicate Path(graph: Graph, path: seq<string>) {
    forall i :: 0 < i < |path| ==> Edge(graph, path[i - 1], path[i])
  }

  /** A closed path with at least one edge. */
  predicate Cycle(graph: Graph, path: seq<string>) {
    |path| >= 2 && path[0] == path[|path| - 1] && Path(graph, path)
  }

  ghost predicate Acyclic(graph: Graph) {
    forall path :: !Cycle(graph, path)
  }

  /** Successor-closed, and on no cycle. */
  ghost predicate Finished(graph: Graph, complete: set<string>) {
    && complete <= graph.Keys
    && (forall n :: n in complete ==> graph[n] <= complete)
    && forall path :: Cycle(graph, path) ==> forall x :: x in path ==> x !in complete
  }

  lemma SuccessorOnCycle(graph: Graph, path: seq<string>, x: string)
    requires Cycle(graph, path) && x in path
    ensures exists y :: y in path && Edge(graph, x, y)
  {
    var i :| 0 <= i < |path| && path[i] == x;
    var next := if i == |path| - 1 then 1 else i + 1;
    assert Edge(graph, path[next - 1], path[next]);
  }

  /** A package whose successors are finished is finished too. */
  lemma FinishOne(graph: Graph, complete: set<string>, name: string)
    requires Finished(graph, complete) && name in graph && graph[name] <= complete
    ensures Finished(graph, complete + {name})
  {
    forall path, x | Cycle(graph, path) && x in path ensures x !in complete + {name} {
      if x == name {
        SuccessorOnCycle(graph, path, name);
        assert false;
      }
    }
  }

  lemma AllFinished(graph: Graph, complete: set<string>)
    requires Finished(graph, complete) && complete == graph.Keys
    ensures Acyclic(graph)
  {
    forall path ensures !Cycle(graph, path) {
      assert |path| >= 2 ==> path[0] in path && (Edge(graph, path[0], path[1]) ==> path[0] in complete);
    }
  }

  class Search {
    const graph: Graph
    var visiting: seq<string>
    var complete: set<string>

    ghost predicate Valid()
      reads this
    {
      && Whole(graph)
      && Path(graph, visiting) && Distinct(visiting) && (forall n :: n in visiting ==> n in graph && n !in complete)
      && Finished(graph, complete)
    }

    constructor (graph: Graph)
      requires Whole(graph)
      ensures Valid() && this.graph == graph && visiting == [] && complete == {}
    {
      this.graph, visiting, complete := graph, [], {};
    }

    /** The path up to the repeated package, closed. */
    method Report(name: string) returns (cycle: seq<string>)
      requires Valid() && name in visiting
      requires Edge(graph, visiting[|visiting| - 1], name)
      ensures Cycle(graph, cycle) && Distinct(cycle[1..])
      ensures cycle[0] == name && forall n :: n in cycle ==> n in visiting
    {
      var i := 0;
      while visiting[i] != name
        invariant 0 <= i < |visiting| && name in visiting[i..]
        decreases |visiting| - i
      {
        assert visiting[i..] == [visiting[i]] + visiting[i + 1..];
        i := i + 1;
      }
      cycle := visiting[i..] + [name];
      forall k | 0 < k < |cycle| ensures Edge(graph, cycle[k - 1], cycle[k]) {
        if k < |visiting| - i { assert Edge(graph, visiting[i + k - 1], visiting[i + k]); }
      }
    }

    /** Depth-first search below one package.  Some reports a cycle. */
    method Visit(name: string) returns (found: Option<seq<string>>)
      requires Valid() && name in graph
      requires visiting == [] || Edge(graph, visiting[|visiting| - 1], name)
      modifies this
      ensures Valid() && old(complete) <= complete
      ensures found.None? ==> visiting == old(visiting) && name in complete
      ensures found.Some? ==> Cycle(graph, found.value) && Distinct(found.value[1..])
      decreases graph.Keys - (set n | n in visiting) - complete
    {
      if name in visiting {
        var cycle := Report(name);
        return Some(cycle);
      }
      if name in complete { return None; }
      ghost var path, before := visiting, graph.Keys - (set n | n in visiting) - complete;
      assert name in before;
      visiting := visiting + [name];
      var rest := graph[name];
      while rest != {}
        invariant Valid() && visiting == path + [name] && old(complete) <= complete
        invariant rest <= graph[name] && graph[name] - rest <= complete
        decreases rest
      {
        var dependency :| dependency in rest;
        assert graph.Keys - (set n | n in visiting) - complete < before by {
          assert name in visiting;
          assert forall n :: n in path ==> n in visiting;
        }
        found := Visit(dependency);
        if found.Some? { return; }
        rest := rest - {dependency};
      }
      FinishOne(graph, complete, name);
      assert visiting[..|visiting| - 1] == path;
      visiting := visiting[..|visiting| - 1];
      complete := complete + {name};
      found := None;
    }

    /** Visits every package; finishes exactly on acyclic graphs. */
    method Run() returns (found: Option<seq<string>>)
      requires Valid() && visiting == [] && complete == {}
      modifies this
      ensures Valid()
      ensures found.None? <==> Acyclic(graph)
      ensures found.None? ==> complete == graph.Keys && visiting == []
      ensures found.Some? ==> Cycle(graph, found.value) && Distinct(found.value[1..])
    {
      var rest := graph.Keys;
      while rest != {}
        invariant Valid() && visiting == [] && rest <= graph.Keys && graph.Keys - rest <= complete
        decreases rest
      {
        var name :| name in rest;
        found := Visit(name);
        if found.Some? { return; }
        rest := rest - {name};
      }
      AllFinished(graph, complete);
      found := None;
    }
  }
}
