/** Which histories the fulfillment fixture passes, and how any history can be
    completed. */
module FulfillmentVerdict {
  import opened Wrappers
  import opened Fulfillment
  import opened FulfillmentLaws
  import opened Sequences

  ghost predicate DistinctOrders(entries: seq<Order>) {
    forall i, j | 0 <= i < j < |entries| :: entries[i].identifier != entries[j].identifier
  }

  lemma SeededOrdersAreDistinct(seed: int)
    ensures DistinctOrders(Orders(seed))
  {
    var prefix := "order-" + Shown(seed) + "-";
    assert Shown(1) == ['1'] && Shown(2) == ['2'] && Shown(3) == ['3'];
    assert (prefix + "1")[|prefix|] == '1' && (prefix + "2")[|prefix|] == '2' && (prefix + "3")[|prefix|] == '3';
  }

  lemma {:induction false} FindIsListed(entries: seq<Order>, id: Text)
    ensures var found := Find(entries, id);
            && (found.Some? ==> found.value in entries && found.value.identifier == id)
            && (found.None? ==> forall o | o in entries :: o.identifier != id)
  {
    if entries != [] { FindIsListed(entries[1..], id); }
  }

  lemma {:induction false} ListedIsFound(entries: seq<Order>, o: Order)
    requires DistinctOrders(entries) && o in entries
    ensures Find(entries, o.identifier) == Some(o)
  {
    if entries[0] != o {
      assert o in entries[1..];
      var i :| 0 <= i < |entries[1..]| && entries[1..][i] == o;
      assert entries[i + 1] == o;
      ListedIsFound(entries[1..], o);
    }
  }

  // ----- The expected operations -----

  lemma {:induction false} ExpectedMembers(entries: seq<Order>, key: Key)
    ensures key in ExpectedKeys(entries) <==> exists o :: o in entries && o.eligible && o.identifier == key.0
  {
    if entries != [] {
      ExpectedMembers(entries[1..], key);
      assert key in OrderKeys(entries[0]) <==> entries[0].eligible && entries[0].identifier == key.0 by {
        match key.1 case Reserve => case Authorize => case Ship =>
      }
      assert forall o :: o in entries <==> o == entries[0] || o in entries[1..];
    }
  }

  lemma {:induction false} ExpectedAreDistinct(entries: seq<Order>)
    requires DistinctOrders(entries)
    ensures Distinct(ExpectedKeys(entries))
  {
    if entries != [] {
      ExpectedAreDistinct(entries[1..]);
      forall key ensures !(key in OrderKeys(entries[0]) && key in ExpectedKeys(entries[1..])) {
        ExpectedMembers(entries[1..], key);
      }
      DistinctConcat(OrderKeys(entries[0]), ExpectedKeys(entries[1..]));
    }
  }

  lemma ExpectedIsEligible(entries: seq<Order>, key: Key)
    requires DistinctOrders(entries)
    ensures key in ExpectedKeys(entries) <==> EligibleKey(entries, key)
  {
    ExpectedMembers(entries, key);
    FindIsListed(entries, key.0);
    forall o | o in entries && o.identifier == key.0 ensures Find(entries, key.0) == Some(o) {
      ListedIsFound(entries, o);
    }
  }

  /** The final state is correct exactly when every eligible order has its three
      operations. */
  lemma CorrectMeansAllServed(entries: seq<Order>, h: History)
    requires DistinctOrders(entries)
    ensures FinalStateCorrect(entries, Run(entries, h))
       <==> forall key | EligibleKey(entries, key) :: key in Run(entries, h).operations
  {
    var operations := Run(entries, h).operations;
    EveryHistoryIsLawful(entries, h);
    ExpectedAreDistinct(entries);
    forall key ensures key in ExpectedKeys(entries) <==> EligibleKey(entries, key) { ExpectedIsEligible(entries, key); }
    if multiset(operations) == multiset(ExpectedKeys(entries)) {
      forall key | EligibleKey(entries, key) ensures key in operations {
        assert key in multiset(ExpectedKeys(entries));
        assert key in multiset(operations);
      }
    }
    if forall key | EligibleKey(entries, key) :: key in operations {
      assert Elements(operations) == Elements(ExpectedKeys(entries));
      SameElements(operations, ExpectedKeys(entries));
    }
  }

  // ----- Which histories pass -----

  /** The first requests of a faultless service of o. */
  ghost predicate Serving(o: Order, p: History) {
    |p| <= 3 && forall k | 0 <= k < |p| :: p[k].operation == AllOperations[k] && p[k].ValidFor(o)
  }

  /** One valid reserve, authorize and ship, in this order, for an eligible
      order, and nothing for anything else. */
  ghost predicate ServedExactly(entries: seq<Order>, h: History, id: Text) {
    var found := Find(entries, id);
    var p := Project(h, id);
    if found.Some? && found.value.eligible then |p| == 3 && Serving(found.value, p) else p == []
  }

  ghost predicate CleanSoFar(entries: seq<Order>, h: History, id: Text) {
    var found := Find(entries, id);
    var p := Project(h, id);
    var operations := Run(entries, h).operations;
    && (p != [] ==> found.Some? && found.value.eligible && Serving(found.value, p))
    && |p| <= 3
    && (forall k | 0 <= k < 3 :: (id, AllOperations[k]) in operations <==> k < |p|)
  }

  lemma AcceptedNext(entries: seq<Order>, h: History, r: Request)
    requires CleanSoFar(entries, h, r.OrderId()) && Verdict(entries, h, r).Accepted?
    ensures CleanSoFar(entries, h + [r], r.OrderId())
  {
    var id := r.OrderId();
    var p := Project(h, id);
    var operations := Run(entries, h).operations;
    RunExtends(entries, h, r);
    ProjectExtends(h, r, id);
    assert (id, AllOperations[0]) in operations <==> 0 < |p|;
    assert (id, AllOperations[1]) in operations <==> 1 < |p|;
    assert (id, AllOperations[2]) in operations <==> 2 < |p|;
    assert r.operation == AllOperations[|p|] by {
      match r.operation case Reserve => case Authorize => case Ship =>
    }
  }

  lemma OtherOrderStaysClean(entries: seq<Order>, h: History, r: Request, id: Text)
    requires CleanSoFar(entries, h, id) && id != r.OrderId()
    ensures CleanSoFar(entries, h + [r], id)
  {
    RunExtends(entries, h, r);
    ProjectExtends(h, r, id);
    assert Project(h, id) + [] == Project(h, id);
  }

  lemma CleanStep(entries: seq<Order>, before: History, r: Request)
    requires CleanAudit(Run(entries, before + [r]))
    ensures CleanAudit(Run(entries, before)) && Verdict(entries, before, r).Accepted?
  {
    RunExtends(entries, before, r);
  }

  /** Without rejections the requests of every order are a beginning of its
      faultless service, and exactly these were accepted. */
  lemma {:induction false} CleanHistory(entries: seq<Order>, h: History, id: Text)
    requires CleanAudit(Run(entries, h))
    ensures CleanSoFar(entries, h, id)
  {
    if h != [] {
      var before, r := h[..|h| - 1], h[|h| - 1];
      assert h == before + [r];
      CleanStep(entries, before, r);
      CleanHistory(entries, before, id);
      if r.OrderId() == id { AcceptedNext(entries, before, r); } else { OtherOrderStaysClean(entries, before, r, id); }
    }
  }

  lemma PassedIsServedExactly(entries: seq<Order>, h: History, id: Text)
    requires DistinctOrders(entries) && Passed(entries, Run(entries, h))
    ensures ServedExactly(entries, h, id)
  {
    CleanHistory(entries, h, id);
    CorrectMeansAllServed(entries, h);
    if EligibleKey(entries, (id, AllOperations[2])) {
      assert (id, AllOperations[2]) in Run(entries, h).operations;
    }
  }

  /** The next request of a faultless service is accepted. */
  lemma ServingIsAccepted(entries: seq<Order>, o: Order, p: History, k: nat)
    requires Serving(o, p) && k <= |p| && o.eligible && Find(entries, o.identifier) == Some(o)
    requires forall i | 0 <= i < |p| :: p[i].OrderId() == o.identifier
    ensures forall i | 0 <= i < 3 :: (o.identifier, AllOperations[i]) in Run(entries, p[..k]).operations <==> i < k
    ensures k < |p| ==> Verdict(entries, p[..k], p[k]).Accepted?
  {
    if k > 0 {
      ServingIsAccepted(entries, o, p, k - 1);
      assert p[..k] == p[..k - 1] + [p[k - 1]];
      RunExtends(entries, p[..k - 1], p[k - 1]);
    }
    var operations := Run(entries, p[..k]).operations;
    assert (o.identifier, AllOperations[0]) in operations <==> 0 < k;
    assert (o.identifier, AllOperations[1]) in operations <==> 1 < k;
    assert (o.identifier, AllOperations[2]) in operations <==> 2 < k;
  }

  lemma AcceptedAdds(entries: seq<Order>, h: History, r: Request)
    requires Verdict(entries, h, r).Accepted?
    ensures var s, t := Run(entries, h), Run(entries, h + [r]);
            && t.operations == [r.Key()] + s.operations
            && t.invalid == s.invalid && t.duplicates == s.duplicates && t.dependencies == s.dependencies
  {
    hide Classify;
    RunExtends(entries, h, r);
  }

  lemma {:induction false} ProjectedHaveId(h: History, id: Text)
    ensures forall r | r in Project(h, id) :: r.OrderId() == id
  {
    if h != [] { ProjectedHaveId(h[..|h| - 1], id); }
  }

  lemma {:induction false} ProjectGrows(h: History, i: nat, id: Text)
    requires i <= |h|
    ensures Project(h[..i], id) <= Project(h, id)
    decreases |h| - i
  {
    if i == |h| {
      assert h[..i] == h;
    } else {
      ProjectGrows(h, i + 1, id);
      assert h[..i + 1] == h[..i] + [h[i]];
      ProjectExtends(h[..i], h[i], id);
    }
  }

  /** In an exactly served history every request is accepted. */
  lemma ServedRequestIsAccepted(entries: seq<Order>, h: History, i: nat)
    requires i < |h| && ServedExactly(entries, h, h[i].OrderId())
    ensures Verdict(entries, h[..i], h[i]).Accepted?
  {
    hide Run, Classify, Verdict, Project;
    var r, id := h[i], h[i].OrderId();
    var p, k := Project(h, id), |Project(h[..i], id)|;
    ProjectGrows(h, i, id);
    ProjectGrows(h, i + 1, id);
    assert h[..i + 1] == h[..i] + [r];
    ProjectExtends(h[..i], r, id);
    assert Project(h[..i], id) + [r] <= p;
    assert p[..k] == Project(h[..i], id) && p[k] == r;
    FindIsListed(entries, id);
    ProjectedHaveId(h, id);
    ServingIsAccepted(entries, Find(entries, id).value, p, k);
    VerdictByProjection(entries, h[..i], r);
  }

  lemma {:induction false} AllAcceptedIsClean(entries: seq<Order>, h: History, n: nat)
    requires n <= |h| && forall i | 0 <= i < n :: Verdict(entries, h[..i], h[i]).Accepted?
    ensures CleanAudit(Run(entries, h[..n]))
    decreases n
  {
    hide Verdict;
    if n > 0 {
      AllAcceptedIsClean(entries, h, n - 1);
      assert h[..n] == h[..n - 1] + [h[n - 1]];
      AcceptedAdds(entries, h[..n - 1], h[n - 1]);
    }
  }

  lemma ServedExactlyPasses(entries: seq<Order>, h: History)
    requires DistinctOrders(entries) && forall id :: ServedExactly(entries, h, id)
    ensures Passed(entries, Run(entries, h))
  {
    forall i | 0 <= i < |h| ensures Verdict(entries, h[..i], h[i]).Accepted? { ServedRequestIsAccepted(entries, h, i); }
    AllAcceptedIsClean(entries, h, |h|);
    assert h[..|h|] == h;
    forall key | EligibleKey(entries, key) ensures key in Run(entries, h).operations {
      CleanHistory(entries, h, key.0);
      assert ServedExactly(entries, h, key.0);
      match key.1
      case Reserve => assert key == (key.0, AllOperations[0]);
      case Authorize => assert key == (key.0, AllOperations[1]);
      case Ship => assert key == (key.0, AllOperations[2]);
    }
    CorrectMeansAllServed(entries, h);
  }

  /** A history passes exactly when it is a shuffle of one faultless service per
      eligible order, and contains nothing else. */
  lemma PassedIffShuffleOfServices(entries: seq<Order>, h: History)
    requires DistinctOrders(entries)
    ensures Passed(entries, Run(entries, h)) <==> forall id :: ServedExactly(entries, h, id)
  {
    if Passed(entries, Run(entries, h)) {
      forall id ensures ServedExactly(entries, h, id) { PassedIsServedExactly(entries, h, id); }
    }
    if forall id :: ServedExactly(entries, h, id) { ServedExactlyPasses(entries, h); }
  }

  // ----- Completing a history -----

  function ValidRequest(o: Order, op: Operation): (r: Request)
    ensures r.OrderId() == o.identifier && r.operation == op && r.ValidFor(o)
  {
    var fields := match op
      case Reserve => map["orderId" := String(o.identifier), "quantity" := Number(o.quantity as real)]
      case Authorize => map["orderId" := String(o.identifier), "amountCents" := Number(o.amount as real)]
      case Ship => map["orderId" := String(o.identifier),
                       "reservationId" := String("reservation-" + o.identifier),
                       "authorizationId" := String("authorization-" + o.identifier)];
    var r := Request(op, Some(Object(fields)));
    assert r.Field("orderId") == Some(String(o.identifier));
    r
  }

  function ServiceOf(o: Order): History {
    if o.eligible then [ValidRequest(o, Reserve), ValidRequest(o, Authorize), ValidRequest(o, Ship)] else []
  }

  function Services(entries: seq<Order>): History {
    if entries == [] then [] else ServiceOf(entries[0]) + Services(entries[1..])
  }

  /** The requests whose operation was not accepted yet. */
  function Missing(operations: seq<Key>, todo: History): History {
    if todo == [] then []
    else (if todo[0].Key() in operations then [] else [todo[0]]) + Missing(operations, todo[1..])
  }

  ghost predicate Ready(entries: seq<Order>, operations: seq<Key>, todo: History, i: nat)
    requires i < |todo|
  {
    var r := todo[i];
    && EligibleKey(entries, r.Key())
    && r.ValidFor(Find(entries, r.Key().0).value)
    && forall op | op in Before(r.operation) ::
         (r.OrderId(), op) in operations || exists j :: 0 <= j < i && todo[j].Key() == (r.OrderId(), op)
  }

  function Before(op: Operation): set<Operation> {
    match op
    case Reserve => {}
    case Authorize => {Reserve}
    case Ship => {Reserve, Authorize}
  }

  ghost predicate Schedulable(entries: seq<Order>, operations: seq<Key>, todo: History) {
    && (forall i | 0 <= i < |todo| :: Ready(entries, operations, todo, i))
    && (forall i, j | 0 <= i < j < |todo| :: todo[i].Key() != todo[j].Key())
  }

  lemma {:induction false} MissingIgnores(operations: seq<Key>, key: Key, todo: History)
    requires forall r | r in todo :: r.Key() != key
    ensures Missing([key] + operations, todo) == Missing(operations, todo)
  {
    if todo != [] { MissingIgnores(operations, key, todo[1..]); }
  }

  lemma ScheduleTail(entries: seq<Order>, operations: seq<Key>, more: seq<Key>, todo: History)
    requires todo != [] && Schedulable(entries, operations, todo)
    requires (forall key | key in operations :: key in more) && todo[0].Key() in more
    ensures Schedulable(entries, more, todo[1..])
  {
    forall i | 0 <= i < |todo[1..]| ensures Ready(entries, more, todo[1..], i) {
      var r := todo[i + 1];
      assert Ready(entries, operations, todo, i + 1);
      forall op | op in Before(r.operation)
        ensures (r.OrderId(), op) in more || exists j :: 0 <= j < i && todo[1..][j].Key() == (r.OrderId(), op)
      {
        if (r.OrderId(), op) !in operations {
          var j :| 0 <= j < i + 1 && todo[j].Key() == (r.OrderId(), op);
          if j > 0 { assert todo[1..][j - 1].Key() == (r.OrderId(), op); }
        }
      }
    }
  }

  lemma FirstIsAccepted(entries: seq<Order>, h: History, todo: History)
    requires todo != [] && Schedulable(entries, Run(entries, h).operations, todo)
    requires todo[0].Key() !in Run(entries, h).operations
    ensures Verdict(entries, h, todo[0]).Accepted?
  {
    hide Run;
    assert Ready(entries, Run(entries, h).operations, todo, 0);
    ReadyIsAccepted(entries, Run(entries, h).operations, todo[0]);
  }

  lemma LaterKeysDiffer(entries: seq<Order>, operations: seq<Key>, todo: History)
    requires todo != [] && Schedulable(entries, operations, todo)
    ensures forall r | r in todo[1..] :: r.Key() != todo[0].Key()
  {
    hide Ready;
  }

  /** Issuing the missing requests in order is accepted throughout. */
  lemma {:induction false} CompletionIsAccepted(entries: seq<Order>, h: History, todo: History)
    requires Schedulable(entries, Run(entries, h).operations, todo)
    ensures var s, t := Run(entries, h), Run(entries, h + Missing(Run(entries, h).operations, todo));
            && t.invalid == s.invalid && t.duplicates == s.duplicates && t.dependencies == s.dependencies
            && (forall key | key in s.operations :: key in t.operations)
            && (forall r | r in todo :: r.Key() in t.operations)
    decreases |todo|
  {
    hide Run, Verdict, Schedulable;
    var operations := Run(entries, h).operations;
    if todo == [] {
      assert h + [] == h;
    } else {
      var r := todo[0];
      var rest := Missing(operations, todo[1..]);
      if r.Key() in operations {
        ScheduleTail(entries, operations, operations, todo);
        CompletionIsAccepted(entries, h, todo[1..]);
        assert Missing(operations, todo) == rest;
      } else {
        FirstIsAccepted(entries, h, todo);
        AcceptedAdds(entries, h, r);
        var more := Run(entries, h + [r]).operations;
        ScheduleTail(entries, operations, more, todo);
        LaterKeysDiffer(entries, operations, todo);
        MissingIgnores(operations, r.Key(), todo[1..]);
        CompletionIsAccepted(entries, h + [r], todo[1..]);
        assert h + Missing(operations, todo) == (h + [r]) + rest;
      }
    }
  }

  lemma ReadyIsAccepted(entries: seq<Order>, operations: seq<Key>, r: Request)
    requires EligibleKey(entries, r.Key()) && r.ValidFor(Find(entries, r.Key().0).value)
    requires forall op | op in Before(r.operation) :: (r.OrderId(), op) in operations
    requires r.Key() !in operations
    ensures Classify(entries, operations, r).Accepted?
  {
    match r.operation case Reserve => case Authorize => case Ship =>
  }

  ghost predicate Asks(todo: History, key: Key) {
    exists r :: r in todo && r.Key() == key
  }

  /** The services of distinct orders can be scheduled on any ledger. */
  lemma {:induction false} ServicesAreSchedulable(all: seq<Order>, entries: seq<Order>, operations: seq<Key>)
    requires DistinctOrders(all) && DistinctOrders(entries) && forall o | o in entries :: o in all
    ensures Schedulable(all, operations, Services(entries))
    ensures forall r | r in Services(entries) :: exists o :: o in entries && r.OrderId() == o.identifier
    ensures forall o, op | o in entries && o.eligible :: Asks(Services(entries), (o.identifier, op))
  {
    if entries != [] {
      var o, rest := entries[0], Services(entries[1..]);
      ServicesAreSchedulable(all, entries[1..], operations);
      var service := ServiceOf(o);
      ListedIsFound(all, o);
      forall r | r in rest ensures r.OrderId() != o.identifier {
        var q :| q in entries[1..] && r.OrderId() == q.identifier;
      }
      ServiceFirst(all, o, rest, operations);
      forall q, op | q in entries && q.eligible ensures Asks(Services(entries), (q.identifier, op)) {
        if q == o {
          assert ValidRequest(o, op) in service by { match op case Reserve => case Authorize => case Ship => }
          assert ValidRequest(o, op).Key() == (q.identifier, op) && ValidRequest(o, op) in Services(entries);
        } else {
          assert q in entries[1..] && Asks(rest, (q.identifier, op));
          var r :| r in rest && r.Key() == (q.identifier, op);
          assert r in Services(entries);
        }
      }
      forall r | r in Services(entries) ensures exists q :: q in entries && r.OrderId() == q.identifier {
        if r in service {
          assert o in entries && r.OrderId() == o.identifier;
        } else {
          var q :| q in entries[1..] && r.OrderId() == q.identifier;
          assert q in entries;
        }
      }
    }
  }

  lemma ServiceFirst(all: seq<Order>, o: Order, rest: History, operations: seq<Key>)
    requires Find(all, o.identifier) == Some(o) && Schedulable(all, operations, rest)
    requires forall r | r in rest :: r.OrderId() != o.identifier
    ensures Schedulable(all, operations, ServiceOf(o) + rest)
  {
    var service := ServiceOf(o);
    var todo := service + rest;
    forall i | 0 <= i < |todo| ensures Ready(all, operations, todo, i) {
      if i < |service| {
        assert todo[i].operation == AllOperations[i] && todo[i].OrderId() == o.identifier;
        if i > 0 { assert todo[0].Key() == (o.identifier, Reserve); }
        if i > 1 { assert todo[1].Key() == (o.identifier, Authorize); }
      } else {
        var k := i - |service|;
        assert Ready(all, operations, rest, k) && todo[i] == rest[k];
        forall op | op in Before(todo[i].operation) && (todo[i].OrderId(), op) !in operations
          ensures exists j :: 0 <= j < i && todo[j].Key() == (todo[i].OrderId(), op)
        {
          var j :| 0 <= j < k && rest[j].Key() == (rest[k].OrderId(), op);
          assert todo[j + |service|].Key() == (todo[i].OrderId(), op);
        }
      }
    }
    forall i, j | 0 <= i < j < |todo| ensures todo[i].Key() != todo[j].Key() {
      if j >= |service| {
        assert todo[j] == rest[j - |service|];
        if i < |service| { assert todo[i].OrderId() == o.identifier; } else { assert todo[i] == rest[i - |service|]; }
      }
    }
  }

  /** From any reachable ledger, issuing exactly the missing operations in order
      reaches the correct final state without a further rejection. */
  lemma AnyHistoryCanBeCompleted(entries: seq<Order>, h: History)
    requires DistinctOrders(entries)
    ensures var s := Run(entries, h);
            var t := Run(entries, h + Missing(s.operations, Services(entries)));
            && FinalStateCorrect(entries, t)
            && t.invalid == s.invalid && t.duplicates == s.duplicates && t.dependencies == s.dependencies
            && (CleanAudit(s) ==> Passed(entries, t))
  {
    var operations := Run(entries, h).operations;
    ServicesAreSchedulable(entries, entries, operations);
    CompletionIsAccepted(entries, h, Services(entries));
    var completed := h + Missing(operations, Services(entries));
    forall key | EligibleKey(entries, key) ensures key in Run(entries, completed).operations {
      FindIsListed(entries, key.0);
      var o := Find(entries, key.0).value;
      assert Asks(Services(entries), (o.identifier, key.1));
      var r :| r in Services(entries) && r.Key() == (o.identifier, key.1);
    }
    CorrectMeansAllServed(entries, completed);
  }
}
