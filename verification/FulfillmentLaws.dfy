/** What the ledger of the fulfillment fixture guarantees over every history
    and every interleaving of histories. */
module FulfillmentLaws {
  import opened Wrappers
  import opened Fulfillment
  import opened Sequences

  lemma RunExtends(entries: seq<Order>, h: History, r: Request)
    ensures Run(entries, h + [r]) == Apply(entries, Run(entries, h), r)
  {
    assert (h + [r])[..|h|] == h;
  }

  // ----- Laws of every reachable ledger -----

  ghost predicate EligibleKey(entries: seq<Order>, key: Key) {
    var found := Find(entries, key.0);
    found.Some? && found.value.eligible
  }

  ghost predicate DependencyClosed(operations: seq<Key>) {
    forall key | key in operations :: DependencyValid(operations, key)
  }

  ghost predicate Lawful(entries: seq<Order>, s: State) {
    && Distinct(s.operations)
    && (forall key | key in s.operations :: EligibleKey(entries, key))
    && DependencyClosed(s.operations)
    && |s.operations| + s.invalid + s.duplicates + s.dependencies == |s.audit|
    && |s.operations| == 3 * Shipments(s.operations) + PartialEffects(s)
  }

  function CountOthers(part: seq<Key>, id: Text): nat {
    if part == [] then 0 else (if part[0].0 == id && part[0].1 != Ship then 1 else 0) + CountOthers(part[1..], id)
  }

  /** An accepted operation other than ship leaves the others as partial as they were. */
  lemma {:induction false} PartialIgnoresOthers(part: seq<Key>, operations: seq<Key>, key: Key)
    requires key.1 != Ship
    ensures PartialIn(part, [key] + operations) == PartialIn(part, operations)
  {
    if part != [] { PartialIgnoresOthers(part[1..], operations, key); }
  }

  /** A shipment settles the other operations of its order. */
  lemma {:induction false} PartialAfterShipment(part: seq<Key>, operations: seq<Key>, id: Text)
    requires (id, Ship) !in operations
    ensures PartialIn(part, [(id, Ship)] + operations) + CountOthers(part, id) == PartialIn(part, operations)
  {
    if part != [] { PartialAfterShipment(part[1..], operations, id); }
  }

  lemma {:induction false} OthersAreTwoAtMost(part: seq<Key>, id: Text)
    requires Distinct(part)
    ensures CountOthers(part, id)
         == (if (id, Reserve) in part then 1 else 0) + (if (id, Authorize) in part then 1 else 0)
  {
    if part != [] {
      assert part == [part[0]] + part[1..];
      OthersAreTwoAtMost(part[1..], id);
    }
  }

  lemma AcceptedKeepsCount(s: State, key: Key)
    requires Distinct(s.operations) && DependencyClosed(s.operations)
    requires key !in s.operations && DependencyValid(s.operations, key)
    requires |s.operations| == 3 * Shipments(s.operations) + PartialEffects(s)
    ensures var more := [key] + s.operations; |more| == 3 * Shipments(more) + PartialIn(more, more)
  {
    var more := [key] + s.operations;
    assert more[1..] == s.operations;
    if key.1 == Ship {
      PartialAfterShipment(s.operations, s.operations, key.0);
      OthersAreTwoAtMost(s.operations, key.0);
    } else {
      PartialIgnoresOthers(s.operations, s.operations, key);
      assert (key.0, Ship) !in s.operations;
    }
  }

  lemma AcceptedStaysLawful(entries: seq<Order>, s: State, key: Key)
    requires Lawful(entries, s)
    requires key !in s.operations && EligibleKey(entries, key) && DependencyValid(s.operations, key)
    ensures var more := [key] + s.operations;
            && Distinct(more) && DependencyClosed(more) && (forall k | k in more :: EligibleKey(entries, k))
            && |more| == 3 * Shipments(more) + PartialIn(more, more)
  {
    var more := [key] + s.operations;
    AcceptedKeepsCount(s, key);
    forall k | k in more ensures EligibleKey(entries, k) && DependencyValid(more, k) {
      if k != key { assert k in s.operations && DependencyValid(s.operations, k); }
    }
  }

  lemma AcceptedMeans(entries: seq<Order>, operations: seq<Key>, r: Request)
    requires Classify(entries, operations, r).Accepted?
    ensures EligibleKey(entries, r.Key()) && r.Key() !in operations && DependencyValid(operations, r.Key())
  {
  }

  lemma StepIsLawful(entries: seq<Order>, s: State, r: Request)
    requires Lawful(entries, s)
    ensures Lawful(entries, Apply(entries, s, r))
  {
    if Classify(entries, s.operations, r).Accepted? {
      AcceptedMeans(entries, s.operations, r);
      AcceptedStaysLawful(entries, s, r.Key());
    }
  }

  /** Accepted operations are distinct, eligible and dependency-closed; accepted
      and rejected requests make up the audit; and accepted operations are three
      for each shipped order plus the partial effects. */
  lemma {:induction false} EveryHistoryIsLawful(entries: seq<Order>, h: History)
    ensures Lawful(entries, Run(entries, h)) && |Run(entries, h).audit| == |h|
  {
    if h != [] {
      EveryHistoryIsLawful(entries, h[..|h| - 1]);
      StepIsLawful(entries, Run(entries, h[..|h| - 1]), h[|h| - 1]);
    }
  }

  // ----- Orders do not interfere -----

  /** The requests of one order, in their order. */
  function Project(h: History, id: Text): History {
    if h == [] then []
    else Project(h[..|h| - 1], id) + (if h[|h| - 1].OrderId() == id then [h[|h| - 1]] else [])
  }

  lemma ProjectExtends(h: History, r: Request, id: Text)
    ensures Project(h + [r], id) == Project(h, id) + (if r.OrderId() == id then [r] else [])
  {
    assert (h + [r])[..|h|] == h;
  }

  ghost predicate AgreeOn(a: seq<Key>, b: seq<Key>, id: Text) {
    forall op :: (id, op) in a <==> (id, op) in b
  }

  lemma ClassifySeesOneOrder(entries: seq<Order>, a: seq<Key>, b: seq<Key>, r: Request)
    requires AgreeOn(a, b, r.OrderId())
    ensures Classify(entries, a, r) == Classify(entries, b, r)
  {
    assert (r.OrderId(), Reserve) in a <==> (r.OrderId(), Reserve) in b;
    assert (r.OrderId(), Authorize) in a <==> (r.OrderId(), Authorize) in b;
    assert r.Key() in a <==> r.Key() in b;
  }

  /** What was accepted for an order depends on that order's requests alone. */
  lemma {:induction false} ProjectionDecides(entries: seq<Order>, h: History, id: Text)
    ensures AgreeOn(Run(entries, h).operations, Run(entries, Project(h, id)).operations, id)
  {
    if h != [] {
      var before, r := h[..|h| - 1], h[|h| - 1];
      ProjectionDecides(entries, before, id);
      if r.OrderId() == id {
        RunExtends(entries, Project(before, id), r);
        ClassifySeesOneOrder(entries, Run(entries, before).operations, Run(entries, Project(before, id)).operations, r);
      } else {
        assert Project(h, id) == Project(before, id);
      }
    }
  }

  /** So does the classification of a request. */
  lemma VerdictByProjection(entries: seq<Order>, before: History, r: Request)
    ensures Verdict(entries, before, r) == Verdict(entries, Project(before, r.OrderId()), r)
  {
    ProjectionDecides(entries, before, r.OrderId());
    ClassifySeesOneOrder(entries, Run(entries, before).operations,
                         Run(entries, Project(before, r.OrderId())).operations, r);
  }

  ghost predicate SameSequences(g: History, h: History) {
    forall id :: Project(g, id) == Project(h, id)
  }

  /** In two interleavings of the same per-order sequences, the request at the
      same place of its order is classified the same. */
  lemma InterleavingKeepsEveryVerdict(entries: seq<Order>, g: History, i: nat, h: History, j: nat)
    requires i < |g| && j < |h| && g[i] == h[j]
    requires Project(g[..i], g[i].OrderId()) == Project(h[..j], h[j].OrderId())
    ensures Verdict(entries, g[..i], g[i]) == Verdict(entries, h[..j], h[j])
  {
    VerdictByProjection(entries, g[..i], g[i]);
    VerdictByProjection(entries, h[..j], h[j]);
  }

  ghost predicate Differ(more: State, less: State, e: Event) {
    && multiset(more.audit) == multiset(less.audit) + multiset{e}
    && multiset(more.operations)
       == multiset(less.operations) + (if e.classification.Accepted? then multiset{e.request.Key()} else multiset{})
    && more.invalid == less.invalid + (if e.classification.Invalid? then 1 else 0)
    && more.duplicates == less.duplicates + (if e.classification.Duplicate? then 1 else 0)
    && more.dependencies == less.dependencies + (if e.classification.Dependency? then 1 else 0)
  }

  lemma ApplyKeepsDiffer(entries: seq<Order>, more: State, less: State, e: Event, r: Request)
    requires Differ(more, less, e)
    requires Classify(entries, more.operations, r) == Classify(entries, less.operations, r)
    ensures Differ(Apply(entries, more, r), Apply(entries, less, r), e)
  {
  }

  lemma {:induction false} ProjectConcat(a: History, b: History, id: Text)
    ensures Project(a + b, id) == Project(a, id) + Project(b, id)
  {
    if b == [] {
      assert a + b == a;
    } else {
      var b' := b[..|b| - 1];
      assert (a + b)[..|a + b| - 1] == a + b';
      ProjectConcat(a, b', id);
    }
  }

  lemma ProjectDrop(a: History, r: Request, b: History, id: Text)
    ensures Project(a + [r] + b, id) == Project(a, id) + (if r.OrderId() == id then [r] else []) + Project(b, id)
    ensures Project(a + b, id) == Project(a, id) + Project(b, id)
  {
    ProjectConcat(a + [r], b, id);
    ProjectConcat(a, b, id);
    ProjectExtends(a, r, id);
  }

  /** Requests of other orders do not notice a dropped request. */
  lemma OthersDoNotNotice(entries: seq<Order>, a: History, r: Request, b: History, x: Request)
    requires x.OrderId() != r.OrderId()
    ensures Verdict(entries, a + [r] + b, x) == Verdict(entries, a + b, x)
  {
    hide Run, Classify, Verdict;
    ProjectDrop(a, r, b, x.OrderId());
    assert Project(a, x.OrderId()) + [] + Project(b, x.OrderId()) == Project(a + b, x.OrderId());
    VerdictByProjection(entries, a + [r] + b, x);
    VerdictByProjection(entries, a + b, x);
  }

  lemma DropLast(entries: seq<Order>, a: History, r: Request)
    ensures Differ(Run(entries, a + [r]), Run(entries, a), Event(r, Verdict(entries, a, r)))
  {
    hide Classify;
    RunExtends(entries, a, r);
  }

  /** A request may be dropped from in front of requests of other orders. */
  lemma {:induction false} DropBeforeOthers(entries: seq<Order>, a: History, r: Request, b: History)
    requires Project(b, r.OrderId()) == []
    ensures Differ(Run(entries, a + [r] + b), Run(entries, a + b), Event(r, Verdict(entries, a, r)))
    decreases |b|
  {
    hide Project, Classify, Apply, Differ;
    if b == [] {
      assert a + [r] + b == a + [r] && a + b == a;
      DropLast(entries, a, r);
    } else {
      var b', x := b[..|b| - 1], b[|b| - 1];
      assert b == b' + [x];
      assert a + [r] + b == (a + [r] + b') + [x] && a + b == (a + b') + [x];
      RunExtends(entries, a + [r] + b', x);
      RunExtends(entries, a + b', x);
      ProjectExtends(b', x, r.OrderId());
      DropBeforeOthers(entries, a, r, b');
      OthersDoNotNotice(entries, a, r, b', x);
      ApplyKeepsDiffer(entries, Run(entries, a + [r] + b'), Run(entries, a + b'), Event(r, Verdict(entries, a, r)), x);
    }
  }

  /** The last request of an order, and what follows it. */
  lemma {:induction false} SplitAtLast(h: History, id: Text) returns (a: History, r: Request, b: History)
    requires Project(h, id) != []
    ensures h == a + [r] + b && r.OrderId() == id && Project(b, id) == []
    ensures Project(h, id) == Project(a, id) + [r]
  {
    var h', x := h[..|h| - 1], h[|h| - 1];
    if x.OrderId() == id {
      a, r, b := h', x, [];
    } else {
      a, r, b := SplitAtLast(h', id);
      ProjectExtends(b, x, id);
      b := b + [x];
      assert h == h' + [x];
    }
  }

  lemma NonemptyProjection(h: History)
    requires h != []
    ensures exists id :: Project(h, id) != []
  {
    assert Project(h, h[|h| - 1].OrderId()) != [];
  }

  lemma OnlyEmpty(h: History)
    requires SameSequences([], h)
    ensures h == []
  {
    if h != [] {
      NonemptyProjection(h);
      assert false;
    }
  }

  /** Any two interleavings of the same per-order sequences end with the same
      accepted operations, the same classified requests and the same counters. */
  lemma {:induction false} InterleavingKeepsOutcome(entries: seq<Order>, g: History, h: History)
    requires SameSequences(g, h)
    ensures var s, t := Run(entries, g), Run(entries, h);
            && multiset(s.operations) == multiset(t.operations) && multiset(s.audit) == multiset(t.audit)
            && s.invalid == t.invalid && s.duplicates == t.duplicates && s.dependencies == t.dependencies
    decreases |g|
  {
    hide Project, SameSequences, Classify;
    if g == [] {
      OnlyEmpty(h);
    } else {
      var g', r := g[..|g| - 1], g[|g| - 1];
      assert g == g' + [r];
      var a, b := MatchLast(g', r, h);
      InterleavingKeepsOutcome(entries, g', a + b);
      DropBeforeOthers(entries, a, r, b);
      VerdictByProjection(entries, a, r);
      VerdictByProjection(entries, g', r);
    }
  }

  /** The other interleaving holds the last request too, with only requests of
      other orders behind it; without it the sequences still agree. */
  lemma MatchLast(g': History, r: Request, h: History) returns (a: History, b: History)
    requires SameSequences(g' + [r], h)
    ensures h == a + [r] + b && Project(b, r.OrderId()) == []
    ensures Project(a, r.OrderId()) == Project(g', r.OrderId()) && SameSequences(g', a + b)
  {
    var id := r.OrderId();
    var x;
    ProjectExtends(g', r, id);
    assert Project(h, id) == Project(g' + [r], id) == Project(g', id) + [r];
    a, x, b := SplitAtLast(h, id);
    LastEqual(Project(a, id), x, Project(g', id), r);
    forall i ensures Project(g', i) == Project(a + b, i) {
      DroppedStaySame(g', r, a, b, h, i);
    }
  }

  lemma LastEqual<T>(a: seq<T>, x: T, b: seq<T>, y: T)
    requires a + [x] == b + [y]
    ensures a == b && x == y
  {
    assert |a| == |b|;
    assert x == (a + [x])[|a|] == y;
    assert a == (a + [x])[..|a|] == b;
  }

  lemma DroppedStaySame(g': History, r: Request, a: History, b: History, h: History, id: Text)
    requires h == a + [r] + b && Project(g' + [r], id) == Project(h, id) && Project(b, r.OrderId()) == []
    requires Project(a, r.OrderId()) == Project(g', r.OrderId())
    ensures Project(g', id) == Project(a + b, id)
  {
    ProjectDrop(a, r, b, id);
    ProjectExtends(g', r, id);
    WithoutMiddle(Project(g', id), Project(a, id), if r.OrderId() == id then [r] else [], Project(b, id));
  }

  lemma WithoutMiddle<T>(g: seq<T>, a: seq<T>, middle: seq<T>, b: seq<T>)
    requires g + middle == a + middle + b
    requires middle != [] ==> b == [] && a == g
    ensures g == a + b
  {
    if middle == [] {
      assert g + middle == g && a + middle == a;
    } else {
      assert a + b == a;
    }
  }
}
