/** What the audit of the fulfillment fixture says of each request of a history,
    told by the earlier entries of the same audit. */
module FulfillmentAudit {
  import opened Fulfillment
  import opened FulfillmentLaws
  import opened Sequences
  import opened Wrappers

  // ----- Proper requests -----

  /** The arguments of a faultless call for an order, all of them. */
  function ProperFields(op: Operation, o: Order, id: Value): map<Text, Value> {
    match op
    case Reserve => map["orderId" := id, "quantity" := Number(o.quantity as real)]
    case Authorize => map["orderId" := id, "amountCents" := Number(o.amount as real)]
    case Ship => map["orderId" := id, "reservationId" := String("reservation-" + o.identifier),
                     "authorizationId" := String("authorization-" + o.identifier)]
  }

  /** How an order's identifier is given: as a string.  (An order without an
      identifier, which no fixture has, is named by anything but a string, too.) */
  predicate GivesId(id: Value, text: Text) {
    id == String(text) || (text == "" && !id.String?)
  }

  /** The request names the order and has exactly the arguments it takes. */
  ghost predicate IsProperCall(r: Request, o: Order) {
    exists id :: GivesId(id, o.identifier) && r.arguments == Some(Object(ProperFields(r.operation, o, id)))
  }

  /** A proper call for the first order of that name, which is eligible. */
  ghost predicate Proper(entries: seq<Order>, r: Request) {
    exists i :: 0 <= i < |entries| && entries[i].eligible && IsProperCall(r, entries[i]) && FirstNamed(entries, i)
  }

  predicate FirstNamed(entries: seq<Order>, i: nat)
    requires i < |entries|
  {
    forall j :: 0 <= j < i ==> entries[j].identifier != entries[i].identifier
  }

  lemma ProperCallIsValid(r: Request, o: Order, id: Value)
    requires GivesId(id, o.identifier) && r.arguments == Some(Object(ProperFields(r.operation, o, id)))
    ensures r.OrderId() == o.identifier && r.ValidFor(o)
  {
    assert r.Field("orderId") == Some(id);
  }

  lemma ValidCallIsProper(r: Request, o: Order)
    requires r.OrderId() == o.identifier && r.ValidFor(o)
    ensures IsProperCall(r, o)
  {
    var fields := r.Value().fields;
    assert "orderId" in fields.Keys;
    var id := fields["orderId"];
    assert GivesId(id, o.identifier);
    match r.operation
    case Reserve => assert "quantity" in fields.Keys && fields == ProperFields(Reserve, o, id);
    case Authorize => assert "amountCents" in fields.Keys && fields == ProperFields(Authorize, o, id);
    case Ship =>
      assert "reservationId" in fields.Keys && "authorizationId" in fields.Keys;
      assert fields == ProperFields(Ship, o, id);
  }

  /** The ledger's check of the arguments admits exactly the proper calls. */
  lemma ValidIffProper(r: Request, o: Order)
    ensures r.OrderId() == o.identifier && r.ValidFor(o) <==> IsProperCall(r, o)
  {
    if r.OrderId() == o.identifier && r.ValidFor(o) { ValidCallIsProper(r, o); }
    if id :| GivesId(id, o.identifier) && r.arguments == Some(Object(ProperFields(r.operation, o, id))) {
      ProperCallIsValid(r, o, id);
    }
  }

  lemma {:induction false} FindsTheFirst(entries: seq<Order>, id: Text, i: nat)
    requires i < |entries|
    ensures entries[i].identifier == id && FirstNamed(entries, i) ==> Find(entries, id) == Some(entries[i])
    decreases |entries|
  {
    if entries[i].identifier == id && FirstNamed(entries, i) && i > 0 {
      forall j | 0 <= j < i - 1 ensures entries[1..][j].identifier != id { assert entries[j + 1].identifier != id; }
      FindsTheFirst(entries[1..], id, i - 1);
    }
  }

  lemma {:induction false} FoundIsFirst(entries: seq<Order>, id: Text) returns (i: nat)
    requires Find(entries, id).Some?
    ensures i < |entries| && entries[i].identifier == id && FirstNamed(entries, i)
    ensures Find(entries, id) == Some(entries[i])
  {
    if entries[0].identifier == id {
      i := 0;
    } else {
      var k := FoundIsFirst(entries[1..], id);
      i := k + 1;
      forall j | 0 <= j < i ensures entries[j].identifier != id {
        if j > 0 { assert entries[1..][j - 1].identifier != id; }
      }
    }
  }

  /** What the ledger looks up and checks is that the request is proper. */
  lemma AdmissibleIffProper(entries: seq<Order>, r: Request)
    ensures var found := Find(entries, r.OrderId());
            found.Some? && found.value.eligible && r.ValidFor(found.value) <==> Proper(entries, r)
  {
    var found := Find(entries, r.OrderId());
    if found.Some? && found.value.eligible && r.ValidFor(found.value) {
      var i := FoundIsFirst(entries, r.OrderId());
      ValidIffProper(r, entries[i]);
    }
    if Proper(entries, r) {
      var i :| 0 <= i < |entries| && entries[i].eligible && IsProperCall(r, entries[i]) && FirstNamed(entries, i);
      ValidIffProper(r, entries[i]);
      FindsTheFirst(entries, r.OrderId(), i);
    }
  }

  // ----- What became of each request -----

  /** The audit holds the requests of the history, newest first. */
  lemma {:induction false} AuditIsHistory(entries: seq<Order>, h: History)
    ensures |Run(entries, h).audit| == |h|
    ensures forall i :: 0 <= i < |h| ==> Run(entries, h).audit[|h| - 1 - i].request == h[i]
  {
    hide Classify;
    if h != [] { AuditIsHistory(entries, h[..|h| - 1]); }
  }

  /** The audit's classification of the i-th request. */
  ghost function Outcome(entries: seq<Order>, h: History, i: nat): Classification
    requires i < |h|
  {
    AuditIsHistory(entries, h);
    Run(entries, h).audit[|h| - 1 - i].classification
  }

  /** An earlier request for this operation was accepted. */
  ghost predicate AcceptedBefore(entries: seq<Order>, h: History, n: nat, key: Key)
    requires n <= |h|
  {
    exists i :: 0 <= i < n && Outcome(entries, h, i).Accepted? && h[i].Key() == key
  }

  /** Reserving comes first and shipping last. */
  predicate MustPrecede(earlier: Operation, later: Operation) {
    earlier != later && (earlier.Reserve? || later.Ship?)
  }

  lemma OutcomeStands(entries: seq<Order>, h: History, r: Request)
    ensures forall i :: 0 <= i < |h| ==> Outcome(entries, h + [r], i) == Outcome(entries, h, i)
    ensures Outcome(entries, h + [r], |h|) == Verdict(entries, h, r)
  {
    hide Classify;
    RunExtends(entries, h, r);
    AuditIsHistory(entries, h);
    AuditIsHistory(entries, h + [r]);
  }

  lemma AcceptedBeforeStands(entries: seq<Order>, h: History, r: Request, key: Key)
    ensures AcceptedBefore(entries, h + [r], |h|, key) <==> AcceptedBefore(entries, h, |h|, key)
    ensures AcceptedBefore(entries, h + [r], |h| + 1, key) <==>
      AcceptedBefore(entries, h, |h|, key) || (Verdict(entries, h, r).Accepted? && r.Key() == key)
  {
    hide Outcome, Verdict;
    OutcomeStands(entries, h, r);
    var longer := h + [r];
    assert longer[|h|] == r && forall i :: 0 <= i < |h| ==> longer[i] == h[i];
    if i :| 0 <= i < |h| && Outcome(entries, h, i).Accepted? && h[i].Key() == key {
      assert Outcome(entries, longer, i).Accepted? && longer[i].Key() == key;
    }
    if Verdict(entries, h, r).Accepted? && r.Key() == key {
      assert Outcome(entries, longer, |h|).Accepted? && longer[|h|].Key() == key;
    }
  }

  /** The ledger's operations are those the audit says were accepted. */
  lemma {:induction false} OperationsWereAccepted(entries: seq<Order>, h: History, key: Key)
    ensures key in Run(entries, h).operations <==> AcceptedBefore(entries, h, |h|, key)
  {
    if h != [] {
      var front, r := h[..|h| - 1], h[|h| - 1];
      assert h == front + [r];
      OperationsWereAccepted(entries, front, key);
      AcceptedBeforeStands(entries, front, r, key);
      hide Classify, AcceptedBefore;
      RunExtends(entries, front, r);
    }
  }

  /** What the last request of a history came to. */
  lemma LastOutcome(entries: seq<Order>, h: History, r: Request)
    ensures Verdict(entries, h, r) ==
      if !Proper(entries, r) then Invalid
      else if AcceptedBefore(entries, h, |h|, r.Key()) then Duplicate
      else if exists op :: MustPrecede(op, r.operation) && !AcceptedBefore(entries, h, |h|, (r.OrderId(), op))
      then Dependency else Accepted
  {
    AdmissibleIffProper(entries, r);
    OperationsWereAccepted(entries, h, r.Key());
    forall op ensures (r.OrderId(), op) in Run(entries, h).operations
                      <==> AcceptedBefore(entries, h, |h|, (r.OrderId(), op))
    {
      OperationsWereAccepted(entries, h, (r.OrderId(), op));
    }
    hide Proper, AcceptedBefore, Find, Run;
    match r.operation
    case Reserve =>
    case Authorize => assert MustPrecede(Reserve, Authorize);
    case Ship => assert MustPrecede(Reserve, Ship) && MustPrecede(Authorize, Ship);
  }

  /** The audit explains itself.  A request is invalid exactly when it is not a
      proper call for an eligible order; otherwise a duplicate exactly when an
      earlier request for its operation was accepted; otherwise premature exactly
      when some operation that must precede it was not accepted earlier; and
      accepted in the cases that remain. */
  lemma {:induction false} AuditExplainsItself(entries: seq<Order>, h: History, i: nat)
    requires i < |h|
    ensures Outcome(entries, h, i) ==
      if !Proper(entries, h[i]) then Invalid
      else if AcceptedBefore(entries, h, i, h[i].Key()) then Duplicate
      else if exists op :: MustPrecede(op, h[i].operation) && !AcceptedBefore(entries, h, i, (h[i].OrderId(), op))
      then Dependency else Accepted
    decreases |h|
  {
    hide Proper, Outcome, Verdict;
    var front, r := h[..|h| - 1], h[|h| - 1];
    assert h == front + [r];
    OutcomeStands(entries, front, r);
    forall key ensures AcceptedBefore(entries, h, i, key) <==> AcceptedBefore(entries, front, i, key) {
      assert forall k :: 0 <= k < i ==> h[k] == front[k];
    }
    if i < |front| {
      AuditExplainsItself(entries, front, i);
    } else {
      LastOutcome(entries, front, r);
    }
  }

  // ----- Counters -----

  ghost function Requests(entries: seq<Order>, h: History, c: Classification): set<nat> {
    set i: nat | i < |h| && Outcome(entries, h, i) == c
  }

  lemma OneMoreRequest(entries: seq<Order>, h: History, r: Request, c: Classification)
    ensures Requests(entries, h + [r], c)
         == Requests(entries, h, c) + if Verdict(entries, h, r) == c then {|h|} else {}
    ensures |Requests(entries, h + [r], c)|
         == |Requests(entries, h, c)| + if Verdict(entries, h, r) == c then 1 else 0
  {
    hide Outcome, Verdict, Run;
    OutcomeStands(entries, h, r);
    var before, after, more := Requests(entries, h, c), Requests(entries, h + [r], c),
      if Verdict(entries, h, r) == c then {|h|} else {};
    forall i: nat ensures i in after <==> i in before + more {}
    assert |h| !in before && after == before + more;
    hide Requests;
  }

  /** Each counter is the number of requests the audit classifies that way, and
      the operations are as many as were accepted. */
  lemma {:induction false} CountersCount(entries: seq<Order>, h: History)
    ensures Run(entries, h).invalid == |Requests(entries, h, Invalid)|
    ensures Run(entries, h).duplicates == |Requests(entries, h, Duplicate)|
    ensures Run(entries, h).dependencies == |Requests(entries, h, Dependency)|
    ensures |Run(entries, h).operations| == |Requests(entries, h, Accepted)|
  {
    if h != [] {
      var front, r := h[..|h| - 1], h[|h| - 1];
      assert h == front + [r];
      CountersCount(entries, front);
      OneMoreRequest(entries, front, r, Invalid);
      OneMoreRequest(entries, front, r, Duplicate);
      OneMoreRequest(entries, front, r, Dependency);
      OneMoreRequest(entries, front, r, Accepted);
      hide Classify, Requests;
      RunExtends(entries, front, r);
    }
  }

  /** The operations reserved or authorized for orders that were not shipped. */
  function Unshipped(part: seq<Key>, operations: seq<Key>): set<Key> {
    set key | key in part && key.1 != Ship && (key.0, Ship) !in operations
  }

  lemma {:induction false} PartialCountsUnshipped(part: seq<Key>, operations: seq<Key>)
    requires Distinct(part)
    ensures PartialIn(part, operations) == |Unshipped(part, operations)|
  {
    if part != [] {
      assert part == [part[0]] + part[1..];
      PartialCountsUnshipped(part[1..], operations);
      var head := if part[0].1 != Ship && (part[0].0, Ship) !in operations then {part[0]} else {};
      assert Unshipped(part, operations) == Unshipped(part[1..], operations) + head;
    }
  }

  lemma PartialEffectsAreUnshipped(entries: seq<Order>, h: History)
    ensures var s := Run(entries, h); PartialEffects(s) == |Unshipped(s.operations, s.operations)|
  {
    EveryHistoryIsLawful(entries, h);
    PartialCountsUnshipped(Run(entries, h).operations, Run(entries, h).operations);
  }

  // ----- The orders of a trial -----

  /** The number that decimal digits spell. */
  function Spelled(s: Text): nat {
    if s == "" then 0
    else 10 * Spelled(s[..|s| - 1]) + (if '0' <= s[|s| - 1] <= '9' then (s[|s| - 1] - '0') as int else 0)
  }

  lemma SpelledOneMore(s: Text, d: nat)
    requires d < 10
    ensures Spelled(s + Shown(d)) == 10 * Spelled(s) + d
  {
    var longer := s + Shown(d);
    assert |Shown(d)| == 1 && Shown(d)[0] == ['0', '1', '2', '3', '4', '5', '6', '7', '8', '9'][d];
    assert longer[..|longer| - 1] == s && longer[|longer| - 1] == Shown(d)[0];
  }

  lemma {:induction false} ShownSpells(n: nat)
    ensures Spelled(Shown(n)) == n
  {
    if n < 10 {
      SpelledOneMore("", n);
      assert "" + Shown(n) == Shown(n);
    } else {
      ShownSpells(n / 10);
      SpelledOneMore(Shown(n / 10), n % 10);
    }
  }

  /** A trial has three orders, of which all but the last are to be fulfilled; each
      costs 113 more than the one before, their quantities go round from 1 to 4,
      and their names tell the seed and the place. */
  lemma OrdersOfATrial(seed: nat, n: nat)
    requires n < 3
    ensures var o := Orders(seed)[n];
            && |Orders(seed)| == 3 && (o.eligible <==> n < 2)
            && o.amount == 1113 + 37 * seed + 113 * n
            && 1 <= o.quantity <= 4 && o.quantity + 4 * ((seed + n + 1) / 4) == seed + n + 2
            && o.identifier == "order-" + Shown(seed) + "-" + Shown(n + 1)
            && Spelled(Shown(seed)) == seed && Spelled(Shown(n + 1)) == n + 1
  {
    ShownSpells(seed);
    ShownSpells(n + 1);
    hide Shown, Spelled;
    assert Orders(seed)[n] == SeededOrder(seed, n + 1);
  }
}
