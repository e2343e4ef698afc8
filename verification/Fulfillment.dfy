/** The audited fulfillment fixture: an admission state machine over orders.

    Every mutation is classified under one lock, and accepted operations as
    well as rejections enter an audit.  A history is the sequence of requests
    in the order in which they took the lock. */
module Fulfillment {
  import opened Wrappers

  type Text = string

  /** JSON, as far as the arguments of an operation can show it. */
  datatype Value =
    | Null
    | Bool(b: bool)
    | Number(n: real)
    | String(s: Text)
    | Array(items: seq<Value>)
    | Object(fields: map<Text, Value>)

  datatype Order = Order(identifier: Text, quantity: int, amount: int, eligible: bool)

  datatype Operation = Reserve | Authorize | Ship

  datatype Classification = Accepted | Invalid | Duplicate | Dependency

  type Key = (Text, Operation)

  /** A call of one of the three mutating tools; arguments that do not parse
      count as null. */
  datatype Request = Request(operation: Operation, arguments: Option<Value>) {
    function Value(): Value {
      if arguments.Some? then arguments.value else Null
    }

    function Field(name: Text): Option<Value> {
      match Value()
      case Object(fields) => if name in fields then Some(fields[name]) else None
      case _ => None
    }

    function OrderId(): Text {
      match Field("orderId")
      case Some(String(s)) => s
      case _ => ""
    }

    function Key(): Key {
      (OrderId(), operation)
    }

    predicate Exactly(names: set<Text>) {
      Value().Object? && Value().fields.Keys == names
    }

    predicate ValidFor(o: Order) {
      match operation
      case Reserve =>
        Exactly({"orderId", "quantity"}) && Field("quantity") == Some(Number(o.quantity as real))
      case Authorize =>
        Exactly({"orderId", "amountCents"}) && Field("amountCents") == Some(Number(o.amount as real))
      case Ship =>
        && Exactly({"orderId", "reservationId", "authorizationId"})
        && Field("reservationId") == Some(String("reservation-" + OrderId()))
        && Field("authorizationId") == Some(String("authorization-" + OrderId()))
    }
  }

  /** Decimal digits, as `show` prints them. */
  function Shown(n: int): Text
    decreases if n < 0 then 1 - n else n
  {
    if n < 0 then "-" + Shown(-n)
    else if n < 10 then [['0', '1', '2', '3', '4', '5', '6', '7', '8', '9'][n]]
    else Shown(n / 10) + Shown(n % 10)
  }

  function SeededOrder(seed: int, n: int): Order {
    Order("order-" + Shown(seed) + "-" + Shown(n), 1 + (seed + n) % 4, 1000 + seed * 37 + n * 113, n != 3)
  }

  /** The three orders of a trial. */
  function Orders(seed: int): seq<Order> {
    [SeededOrder(seed, 1), SeededOrder(seed, 2), SeededOrder(seed, 3)]
  }

  datatype Event = Event(request: Request, classification: Classification)

  /** Newest operation and newest event first, as the ledger conses them. */
  datatype State = State(operations: seq<Key>, audit: seq<Event>, invalid: nat, duplicates: nat, dependencies: nat)

  const Empty: State := State([], [], 0, 0, 0)

  function Find(entries: seq<Order>, id: Text): Option<Order> {
    if entries == [] then None
    else if entries[0].identifier == id then Some(entries[0])
    else Find(entries[1..], id)
  }

  predicate DependencyValid(operations: seq<Key>, key: Key) {
    match key.1
    case Reserve => true
    case Authorize => (key.0, Reserve) in operations
    case Ship => (key.0, Reserve) in operations && (key.0, Authorize) in operations
  }

  function Classify(entries: seq<Order>, operations: seq<Key>, r: Request): Classification {
    match Find(entries, r.OrderId())
    case None => Invalid
    case Some(o) =>
      if !o.eligible || !r.ValidFor(o) then Invalid
      else if r.Key() in operations then Duplicate
      else if !DependencyValid(operations, r.Key()) then Dependency
      else Accepted
  }

  function Apply(entries: seq<Order>, s: State, r: Request): State {
    var c := Classify(entries, s.operations, r);
    State(
      if c.Accepted? then [r.Key()] + s.operations else s.operations,
      [Event(r, c)] + s.audit,
      s.invalid + (if c.Invalid? then 1 else 0),
      s.duplicates + (if c.Duplicate? then 1 else 0),
      s.dependencies + (if c.Dependency? then 1 else 0))
  }

  type History = seq<Request>

  function Run(entries: seq<Order>, h: History): State {
    if h == [] then Empty else Apply(entries, Run(entries, h[..|h| - 1]), h[|h| - 1])
  }

  /** The classification of the last request of a history. */
  function Verdict(entries: seq<Order>, before: History, r: Request): Classification {
    Classify(entries, Run(entries, before).operations, r)
  }

  // ----- Snapshot and verdict of the whole history -----

  const AllOperations: seq<Operation> := [Reserve, Authorize, Ship]

  function OrderKeys(o: Order): seq<Key> {
    if o.eligible then [(o.identifier, Reserve), (o.identifier, Authorize), (o.identifier, Ship)] else []
  }

  function ExpectedKeys(entries: seq<Order>): seq<Key> {
    if entries == [] then [] else OrderKeys(entries[0]) + ExpectedKeys(entries[1..])
  }

  /** Two sorted lists are equal exactly when their multisets are. */
  predicate FinalStateCorrect(entries: seq<Order>, s: State) {
    multiset(s.operations) == multiset(ExpectedKeys(entries))
  }

  predicate CleanAudit(s: State) {
    s.invalid == 0 && s.duplicates == 0 && s.dependencies == 0
  }

  predicate Passed(entries: seq<Order>, s: State) {
    FinalStateCorrect(entries, s) && CleanAudit(s)
  }

  /** Accepted operations other than ship whose order was not shipped. */
  function PartialIn(part: seq<Key>, operations: seq<Key>): nat {
    if part == [] then 0
    else (if part[0].1 != Ship && (part[0].0, Ship) !in operations then 1 else 0) + PartialIn(part[1..], operations)
  }

  function PartialEffects(s: State): nat {
    PartialIn(s.operations, s.operations)
  }

  function Shipments(operations: seq<Key>): nat {
    if operations == [] then 0 else (if operations[0].1 == Ship then 1 else 0) + Shipments(operations[1..])
  }

  /** The fixture, with the lock's holder as the only writer. */
  class Ledger {
    const entries: seq<Order>
    var operations: seq<Key>
    var audit: seq<Event>
    var invalid: nat
    var duplicates: nat
    var dependencies: nat

    ghost function Model(): State
      reads this
    {
      State(operations, audit, invalid, duplicates, dependencies)
    }

    constructor (entries: seq<Order>)
      ensures this.entries == entries && Model() == Empty
    {
      this.entries := entries;
      operations, audit, invalid, duplicates, dependencies := [], [], 0, 0, 0;
    }

    method FindOrder(id: Text) returns (found: Option<Order>)
      ensures found == Find(entries, id)
    {
      for i := 0 to |entries|
        invariant Find(entries, id) == Find(entries[i..], id)
      {
        if entries[i].identifier == id { return Some(entries[i]); }
        assert entries[i..][1..] == entries[i + 1..];
      }
      found := None;
    }

    method Mutate(r: Request) returns (c: Classification)
      modifies this
      ensures Model() == Apply(entries, old(Model()), r)
      ensures c == Classify(entries, old(Model()).operations, r)
    {
      var selected := FindOrder(r.OrderId());
      c := if selected.None? || !selected.value.eligible || !r.ValidFor(selected.value) then Invalid
           else if r.Key() in operations then Duplicate
           else if !DependencyValid(operations, r.Key()) then Dependency
           else Accepted;
      if c.Accepted? { operations := [r.Key()] + operations; }
      audit := [Event(r, c)] + audit;
      match c
      case Invalid => invalid := invalid + 1;
      case Duplicate => duplicates := duplicates + 1;
      case Dependency => dependencies := dependencies + 1;
      case Accepted =>
    }
  }
}
