/** The list of services to initialise, tick and destroy, its sorting, and the callbacks made along it
    (XLN/Core/Foundation/ServiceMgr.cpp and ServiceMgr.h). */
module ServiceOps {
  import opened ServiceGraph
  import opened Sequences

  /** A service object: its class and what its `GetDependency` answers. */
  datatype Service = Service(tag: nat, id: Rtti, dep: seq<Rtti>)

  datatype ServiceInfo = ServiceInfo(dep: seq<Rtti>, order: int, service: Service)

  datatype ServiceOpInfo = ServiceOpInfo(id: Rtti, order: int, service: Service)

  /** The callbacks a service gets. */
  datatype Event = OnPreInit(s: Service) | OnInit(s: Service) | OnDestroy(s: Service)

  /** `std::numeric_limits<Int32>::infinity()`, which is 0 for integers. */
  const INT32_INFINITY := 0

  type ServiceMap = map<Rtti, ServiceInfo>

  // ---------- The operation list and the callbacks ----------

  function OpIds(ops: seq<ServiceOpInfo>): (r: seq<Rtti>)
    ensures |r| == |ops| && forall i | 0 <= i < |ops| :: r[i] == ops[i].id
  {
    Map((op: ServiceOpInfo) => op.id, ops)
  }

  function OpServices(ops: seq<ServiceOpInfo>): (r: seq<Service>)
    ensures |r| == |ops| && forall i | 0 <= i < |ops| :: r[i] == ops[i].service
  {
    Map((op: ServiceOpInfo) => op.service, ops)
  }

  /** The services in the order of their `OnInit` callbacks. */
  function Inits(t: seq<Event>): seq<Service> {
    if t == [] then []
    else Inits(t[..|t| - 1]) + if t[|t| - 1].OnInit? then [t[|t| - 1].s] else []
  }

  /** The services in the order of their `OnDestroy` callbacks. */
  function Destroys(t: seq<Event>): seq<Service> {
    if t == [] then []
    else Destroys(t[..|t| - 1]) + if t[|t| - 1].OnDestroy? then [t[|t| - 1].s] else []
  }

  lemma TraceStep(t: seq<Event>, e: Event)
    ensures Inits(t + [e]) == if e.OnInit? then Inits(t) + [e.s] else Inits(t)
    ensures Destroys(t + [e]) == if e.OnDestroy? then Destroys(t) + [e.s] else Destroys(t)
  {
    assert (t + [e])[..|t|] == t;
  }

  /** Every service comes after all services it depends on. */
  ghost predicate DependenciesFirst(g: Graph, ids: seq<Rtti>) {
    forall i, j | 0 <= i < |ids| && 0 <= j < |ids| && Edge(g, ids[i], ids[j]) :: j < i
  }

  /** Every service comes before all services it depends on. */
  ghost predicate DependentsFirst(g: Graph, ids: seq<Rtti>) {
    forall i, j | 0 <= i < |ids| && 0 <= j < |ids| && Edge(g, ids[i], ids[j]) :: i < j
  }

  /** The map is iterated over `keys`. */
  ghost predicate Iterates(keys: seq<Rtti>, services: ServiceMap) {
    Distinct(keys) && forall k :: k in keys <==> k in services
  }

  /** Every registered service is listed once. */
  ghost predicate Lists(ops: seq<ServiceOpInfo>, services: ServiceMap) {
    && Iterates(OpIds(ops), services)
    && forall op | op in ops ::
         op.id in services && op.order == services[op.id].order && op.service == services[op.id].service
  }

  /** The listed services have had their `OnInit`, in the order of the list, and none its `OnDestroy`. */
  ghost predicate Called(t: seq<Event>, ops: seq<ServiceOpInfo>) {
    Inits(t) == OpServices(ops) && Destroys(t) == []
  }

  lemma ListsOneMore(ops: seq<ServiceOpInfo>, services: ServiceMap, op: ServiceOpInfo, info: ServiceInfo)
    requires Lists(ops, services) && op.id !in services && op.service == info.service && op.order == info.order
    ensures Lists(ops + [op], services[op.id := info])
  {
    assert OpIds(ops + [op]) == OpIds(ops) + [op.id];
  }

  lemma CalledOneMore(t: seq<Event>, ops: seq<ServiceOpInfo>, op: ServiceOpInfo)
    requires Called(t, ops)
    ensures Called(t + [OnPreInit(op.service)], ops)
    ensures Called(t + [OnPreInit(op.service), OnInit(op.service)], ops + [op])
  {
    hide Inits, Destroys;
    var p, i := OnPreInit(op.service), OnInit(op.service);
    TraceStep(t, p);
    TraceStep(t + [p], i);
    assert t + [p, i] == t + [p] + [i];
    assert OpServices(ops + [op]) == OpServices(ops) + [op.service];
  }

  lemma OrderOneMore(g: Graph, ids: seq<Rtti>, id: Rtti)
    requires DependenciesFirst(g, ids) && id !in g
    ensures DependenciesFirst(g, ids + [id])
  {
    var ids' := ids + [id];
    forall i, j | 0 <= i < |ids'| && 0 <= j < |ids'| && Edge(g, ids'[i], ids'[j])
      ensures j < i
    {
      assert ids'[i] == ids[i] && ids'[j] == ids[j];
    }
  }

  /** A key put in its place by address. */
  function Inserted(keys: seq<Rtti>, k: Rtti): seq<Rtti> {
    if keys == [] || k.address < keys[0].address then [k] + keys else [keys[0]] + Inserted(keys[1..], k)
  }

  lemma {:induction false} KeyInserted(keys: seq<Rtti>, k: Rtti)
    requires Distinct(keys) && k !in keys
    ensures Distinct(Inserted(keys, k)) && forall x :: x in Inserted(keys, k) <==> x in keys || x == k
  {
    if keys != [] && keys[0].address <= k.address {
      KeyInserted(keys[1..], k);
      assert keys == [keys[0]] + keys[1..];
      assert keys[0] !in keys[1..];
      assert keys[0] !in Inserted(keys[1..], k);
    }
  }

  /** The order of a map whose keys are pointers. */
  ghost predicate ByAddress(keys: seq<Rtti>) {
    forall i, j | 0 <= i < j < |keys| :: keys[i].address <= keys[j].address
  }

  lemma FirstIsLeast(keys: seq<Rtti>)
    requires keys != [] && ByAddress(keys)
    ensures ByAddress(keys[1..]) && forall x | x in keys :: keys[0].address <= x.address
  {
  }

  lemma PutFirst(k: Rtti, keys: seq<Rtti>)
    requires ByAddress(keys) && forall x | x in keys :: k.address <= x.address
    ensures ByAddress([k] + keys)
  {
  }

  lemma {:induction false} KeyInPlace(keys: seq<Rtti>, k: Rtti)
    requires ByAddress(keys)
    ensures ByAddress(Inserted(keys, k)) && forall x | x in Inserted(keys, k) :: x in keys || x == k
  {
    hide ByAddress;
    if keys != [] {
      FirstIsLeast(keys);
    }
    if keys != [] && keys[0].address <= k.address {
      KeyInPlace(keys[1..], k);
      PutFirst(keys[0], Inserted(keys[1..], k));
    } else {
      PutFirst(k, keys);
    }
  }

  lemma {:induction false} KeyOutOfPlace(keys: seq<Rtti>, k: Rtti)
    requires ByAddress(keys)
    ensures ByAddress(Without(keys, k)) && forall x | x in Without(keys, k) :: x in keys
  {
    hide ByAddress;
    if keys != [] {
      FirstIsLeast(keys);
      KeyOutOfPlace(keys[1..], k);
      PutFirst(keys[0], Without(keys[1..], k));
      assert [] + Without(keys[1..], k) == Without(keys[1..], k);
    }
  }

  lemma {:induction false} KeyRemoved(keys: seq<Rtti>, k: Rtti)
    requires Distinct(keys)
    ensures Distinct(Without(keys, k)) && forall x :: x in Without(keys, k) <==> x in keys && x != k
  {
    if keys != [] {
      KeyRemoved(keys[1..], k);
      assert keys == [keys[0]] + keys[1..];
      assert keys[0] !in keys[1..];
    }
  }

  function Without(keys: seq<Rtti>, k: Rtti): seq<Rtti> {
    if keys == [] then [] else (if keys[0] == k then [] else [keys[0]]) + Without(keys[1..], k)
  }

  // ---------- Sorting the operation list ----------

  function SortedIn(ops: seq<ServiceOpInfo>, op: ServiceOpInfo): seq<ServiceOpInfo> {
    if ops == [] || ops[|ops| - 1].order <= op.order then ops + [op]
    else SortedIn(ops[..|ops| - 1], op) + [ops[|ops| - 1]]
  }

  /** `std::list::sort`, which keeps elements of equal order as they come. */
  function Sorted(ops: seq<ServiceOpInfo>): seq<ServiceOpInfo> {
    if ops == [] then [] else SortedIn(Sorted(ops[..|ops| - 1]), ops[|ops| - 1])
  }

  ghost predicate Ordered(ops: seq<ServiceOpInfo>) {
    forall i, j | 0 <= i < j < |ops| :: ops[i].order <= ops[j].order
  }

  function OfOrder(ops: seq<ServiceOpInfo>, n: int): seq<ServiceOpInfo> {
    if ops == [] then []
    else OfOrder(ops[..|ops| - 1], n) + if ops[|ops| - 1].order == n then [ops[|ops| - 1]] else []
  }

  lemma OfOrderStep(ops: seq<ServiceOpInfo>, op: ServiceOpInfo, n: int)
    ensures OfOrder(ops + [op], n) == OfOrder(ops, n) + if op.order == n then [op] else []
  {
    assert (ops + [op])[..|ops|] == ops;
  }

  lemma OrderedAppended(ops: seq<ServiceOpInfo>, op: ServiceOpInfo)
    ensures Ordered(ops + [op]) <==> Ordered(ops) && forall o | o in ops :: o.order <= op.order
  {
    var ops' := ops + [op];
    assert forall i | 0 <= i < |ops| :: ops'[i] == ops[i];
    if Ordered(ops') {
      assert ops'[|ops|] == op;
    }
  }

  lemma {:induction false} SortedInOrders(ops: seq<ServiceOpInfo>, op: ServiceOpInfo)
    requires Ordered(ops)
    ensures Ordered(SortedIn(ops, op))
    ensures forall o :: o in SortedIn(ops, op) <==> o in ops || o == op
  {
    OrderedAppended(ops, op);
    if ops != [] {
      var front, last := ops[..|ops| - 1], ops[|ops| - 1];
      assert ops == front + [last];
      OrderedAppended(front, last);
      if last.order > op.order {
        SortedInOrders(front, op);
        OrderedAppended(SortedIn(front, op), last);
      }
    }
  }

  /** Elements of one order are kept, and kept in sequence. */
  lemma {:induction false} SortedInKeeps(ops: seq<ServiceOpInfo>, op: ServiceOpInfo, n: int)
    ensures OfOrder(SortedIn(ops, op), n) == OfOrder(ops, n) + if op.order == n then [op] else []
  {
    OfOrderStep(ops, op, n);
    if ops != [] && ops[|ops| - 1].order > op.order {
      var front, last := ops[..|ops| - 1], ops[|ops| - 1];
      SortedInKeeps(front, op, n);
      OfOrderStep(SortedIn(front, op), last, n);
    }
  }

  /** The sort orders the list, keeps every element, and is stable. */
  lemma {:induction false} SortedSorts(ops: seq<ServiceOpInfo>)
    ensures Ordered(Sorted(ops))
    ensures forall n :: OfOrder(Sorted(ops), n) == OfOrder(ops, n)
  {
    if ops != [] {
      var front, last := ops[..|ops| - 1], ops[|ops| - 1];
      SortedSorts(front);
      SortedInOrders(Sorted(front), last);
      forall n
        ensures OfOrder(Sorted(ops), n) == OfOrder(ops, n)
      {
        SortedInKeeps(Sorted(front), last, n);
      }
    }
  }

  /** The registered services, in the order of the map. */
  function Ops(keys: seq<Rtti>, services: ServiceMap): (r: seq<ServiceOpInfo>)
    requires forall k | k in keys :: k in services
    ensures |r| == |keys|
    ensures forall i | 0 <= i < |keys| ::
              r[i] == ServiceOpInfo(keys[i], services[keys[i]].order, services[keys[i]].service)
  {
    seq(|keys|, i requires 0 <= i < |keys| =>
      ServiceOpInfo(keys[i], services[keys[i]].order, services[keys[i]].service))
  }

  lemma DistinctAppended(s: seq<Rtti>, x: Rtti)
    ensures Distinct(s + [x]) <==> Distinct(s) && x !in s
  {
    if Distinct(s + [x]) {
      assert forall i, j | 0 <= i < j < |s| :: s[i] == (s + [x])[i] && s[j] == (s + [x])[j];
      assert forall i | 0 <= i < |s| :: s[i] == (s + [x])[i] && (s + [x])[|s|] == x;
    }
  }

  lemma {:induction false} SortedInKeepsIds(ops: seq<ServiceOpInfo>, op: ServiceOpInfo)
    requires Distinct(OpIds(ops)) && op.id !in OpIds(ops)
    ensures Distinct(OpIds(SortedIn(ops, op)))
    ensures forall k :: k in OpIds(SortedIn(ops, op)) <==> k in OpIds(ops) || k == op.id
    ensures forall o :: o in SortedIn(ops, op) <==> o in ops || o == op
  {
    DistinctAppended(OpIds(ops), op.id);
    assert OpIds(ops + [op]) == OpIds(ops) + [op.id];
    if ops != [] && ops[|ops| - 1].order > op.order {
      var front, last := ops[..|ops| - 1], ops[|ops| - 1];
      assert ops == front + [last] && OpIds(ops) == OpIds(front) + [last.id];
      DistinctAppended(OpIds(front), last.id);
      SortedInKeepsIds(front, op);
      assert OpIds(SortedIn(ops, op)) == OpIds(SortedIn(front, op)) + [last.id];
      DistinctAppended(OpIds(SortedIn(front, op)), last.id);
    }
  }

  lemma {:induction false} SortedKeepsIds(ops: seq<ServiceOpInfo>)
    requires Distinct(OpIds(ops))
    ensures Distinct(OpIds(Sorted(ops)))
    ensures forall k :: k in OpIds(Sorted(ops)) <==> k in OpIds(ops)
    ensures forall o :: o in Sorted(ops) <==> o in ops
  {
    if ops != [] {
      var front, last := ops[..|ops| - 1], ops[|ops| - 1];
      assert ops == front + [last] && OpIds(ops) == OpIds(front) + [last.id];
      DistinctAppended(OpIds(front), last.id);
      SortedKeepsIds(front);
      SortedInKeepsIds(Sorted(front), last);
    }
  }

  /** By order, and services of one order by the address of their class. */
  ghost predicate ByOrderAndAddress(ops: seq<ServiceOpInfo>) {
    forall i, j | 0 <= i < j < |ops| :: NotAfter(ops[i], ops[j])
  }

  ghost predicate NotAfter(a: ServiceOpInfo, b: ServiceOpInfo) {
    a.order < b.order || (a.order == b.order && a.id.address <= b.id.address)
  }

  lemma PutLast(ops: seq<ServiceOpInfo>, op: ServiceOpInfo)
    requires ByOrderAndAddress(ops) && forall o | o in ops :: NotAfter(o, op)
    ensures ByOrderAndAddress(ops + [op])
  {
  }

  lemma LastComesAfter(ops: seq<ServiceOpInfo>)
    requires ops != [] && ByOrderAndAddress(ops)
    ensures ByOrderAndAddress(ops[..|ops| - 1]) && forall o | o in ops :: o.order <= ops[|ops| - 1].order
    ensures var front, last := ops[..|ops| - 1], ops[|ops| - 1]; forall o | o in front :: NotAfter(o, last)
  {
  }

  lemma {:induction false} SortedInByAddress(ops: seq<ServiceOpInfo>, op: ServiceOpInfo)
    requires ByOrderAndAddress(ops) && forall o | o in ops :: o.id.address <= op.id.address
    ensures ByOrderAndAddress(SortedIn(ops, op))
    ensures forall o | o in SortedIn(ops, op) :: o in ops || o == op
  {
    hide ByOrderAndAddress;
    if ops != [] {
      LastComesAfter(ops);
    }
    if ops == [] || ops[|ops| - 1].order <= op.order {
      PutLast(ops, op);
    } else {
      var front, last := ops[..|ops| - 1], ops[|ops| - 1];
      SortedInByAddress(front, op);
      PutLast(SortedIn(front, op), last);
    }
  }

  lemma LastIsGreatest(ops: seq<ServiceOpInfo>)
    requires ops != [] && ByAddress(OpIds(ops))
    ensures ByAddress(OpIds(ops[..|ops| - 1]))
    ensures forall o | o in ops :: o.id.address <= ops[|ops| - 1].id.address
  {
    var n := |ops| - 1;
    assert forall i | 0 <= i < n :: OpIds(ops[..n])[i] == OpIds(ops)[i];
    forall o | o in ops
      ensures o.id.address <= ops[n].id.address
    {
      var j :| 0 <= j <= n && ops[j] == o;
      assert OpIds(ops)[j].address <= OpIds(ops)[n].address;
    }
  }

  /** Sorting the services as the map gives them leaves those of one order in the order of the map. */
  lemma {:induction false} SortedByAddress(ops: seq<ServiceOpInfo>)
    requires ByAddress(OpIds(ops))
    ensures ByOrderAndAddress(Sorted(ops)) && forall o | o in Sorted(ops) :: o in ops
  {
    if ops != [] {
      hide ByAddress, ByOrderAndAddress, SortedIn, OpIds;
      LastIsGreatest(ops);
      FrontAndLast(ops);
      SortedByAddress(ops[..|ops| - 1]);
      SortedInByAddress(Sorted(ops[..|ops| - 1]), ops[|ops| - 1]);
    }
  }

  lemma SortedLists(keys: seq<Rtti>, services: ServiceMap)
    requires Iterates(keys, services)
    ensures Lists(Sorted(Ops(keys, services)), services)
  {
    assert OpIds(Ops(keys, services)) == keys;
    SortedKeepsIds(Ops(keys, services));
  }

  // ---------- Teardown in reverse ----------

  function Ids(s: seq<Service>): (r: seq<Rtti>)
    ensures |r| == |s| && forall i | 0 <= i < |s| :: r[i] == s[i].id
  {
    Map((x: Service) => x.id, s)
  }

  /** Teardown in reverse order destroys every service before the services it depends on. */
  lemma ReversedDependentsFirst(g: Graph, s: seq<Service>)
    requires DependenciesFirst(g, Ids(s))
    ensures DependentsFirst(g, Ids(Reversed(s)))
  {
    hide Edge, Ids, Reversed;
    ReversedIds(s);
    var ids, ids', n := Ids(s), Ids(Reversed(s)), |s| - 1;
    forall i, j | 0 <= i < |ids'| && 0 <= j < |ids'| && Edge(g, ids'[i], ids'[j])
      ensures i < j
    {
      assert ids'[i] == ids[n - i] && ids'[j] == ids[n - j];
    }
  }

  lemma ReversedIds(s: seq<Service>)
    ensures |Ids(Reversed(s))| == |Ids(s)| == |s|
    ensures forall i | 0 <= i < |s| :: Ids(Reversed(s))[i] == Ids(s)[|s| - 1 - i]
  {
    ReversedAt(s);
  }

  /** Teardown has come down to the first `i` services of the list. */
  ghost predicate DestroyedDownTo(t0: seq<Event>, t: seq<Event>, ops: seq<ServiceOpInfo>, i: nat)
    requires i <= |ops|
  {
    && Inits(t) == Inits(t0)
    && Destroys(t) + Reversed(OpServices(ops[..i])) == Destroys(t0) + Reversed(OpServices(ops))
  }

  lemma DestroyStep(t0: seq<Event>, t: seq<Event>, ops: seq<ServiceOpInfo>, i: nat)
    requires i < |ops| && DestroyedDownTo(t0, t, ops, i + 1)
    ensures DestroyedDownTo(t0, t + [OnDestroy(ops[i].service)], ops, i)
  {
    hide Inits, Destroys, OpServices, Reversed;
    var x := ops[i].service;
    TraceStep(t, OnDestroy(x));
    ReversedStep(ops, i);
    Associative(Destroys(t), [x], Reversed(OpServices(ops[..i])));
  }

  lemma DestroyEnds(t0: seq<Event>, t: seq<Event>, ops: seq<ServiceOpInfo>)
    ensures DestroyedDownTo(t0, t0, ops, |ops|)
    ensures DestroyedDownTo(t0, t, ops, 0) ==>
              Inits(t) == Inits(t0) && Destroys(t) == Destroys(t0) + Reversed(OpServices(ops))
  {
    assert ops[..|ops|] == ops;
  }

  // ---------- Registration ----------

  lemma OrderOneMoreOp(g: Graph, ops: seq<ServiceOpInfo>, op: ServiceOpInfo)
    requires op.id !in g
    ensures DependenciesFirst(g, OpIds(ops)) ==> DependenciesFirst(g, OpIds(ops + [op]))
  {
    assert OpIds(ops + [op]) == OpIds(ops) + [op.id];
    if DependenciesFirst(g, OpIds(ops)) {
      OrderOneMore(g, OpIds(ops), op.id);
    }
  }

  lemma CalledInit(t: seq<Event>, ops: seq<ServiceOpInfo>, op: ServiceOpInfo)
    requires Called(t, ops)
    ensures Called(t + [OnInit(op.service)], ops + [op])
  {
    TraceStep(t, OnInit(op.service));
    assert OpServices(ops + [op]) == OpServices(ops) + [op.service];
  }

  function Initialisations(ops: seq<ServiceOpInfo>): seq<Event> {
    if ops == [] then [] else Initialisations(ops[..|ops| - 1]) + [OnInit(ops[|ops| - 1].service)]
  }

  lemma NothingInitialised(t: seq<Event>)
    ensures t + Initialisations([]) == t
  {
  }

  lemma OneMoreInitialised(t: seq<Event>, ops: seq<ServiceOpInfo>, i: nat)
    requires i < |ops|
    ensures t + Initialisations(ops[..i + 1]) == t + Initialisations(ops[..i]) + [OnInit(ops[i].service)]
  {
    Prefixes(ops, i);
  }

  lemma {:induction false} CalledInits(t: seq<Event>, ops: seq<ServiceOpInfo>)
    requires Called(t, [])
    ensures Called(t + Initialisations(ops), ops)
  {
    hide Called;
    if ops == [] {
      NothingInitialised(t);
    } else {
      var n := |ops| - 1;
      CalledInits(t, ops[..n]);
      FrontAndLast(ops);
      CalledInit(t + Initialisations(ops[..n]), ops[..n], ops[n]);
      OneMoreInitialised(t, ops, n);
      assert ops[..n + 1] == ops;
    }
  }

  lemma ReversedStep(ops: seq<ServiceOpInfo>, i: nat)
    requires i < |ops|
    ensures Reversed(OpServices(ops[..i + 1])) == [ops[i].service] + Reversed(OpServices(ops[..i]))
  {
    var before, after := OpServices(ops[..i]), OpServices(ops[..i + 1]);
    ReversedAt(before);
    ReversedAt(after);
    assert after[..i] == before && after[i] == ops[i].service;
  }

  /** The operation list, the registry and the callbacks agree. Unregistration breaks this: it does not take the
      service off the list. */
  ghost predicate Consistent(t: seq<Event>, ops: seq<ServiceOpInfo>, initialized: bool, services: ServiceMap,
                             g: Graph) {
    && Called(t, ops)
    && (if initialized then Lists(ops, services) else ops == [])
    && (initialized && WellFormed(g) ==> DependenciesFirst(g, OpIds(ops)))
    && (initialized ==> g.Keys <= services.Keys)
  }

  function RegistrationInfo(s: Service, initialized: bool): ServiceInfo {
    ServiceInfo(s.dep, if initialized then INT32_INFINITY else -1, s)
  }

  function RegistrationOps(s: Service, initialized: bool): seq<ServiceOpInfo> {
    if initialized then [ServiceOpInfo(s.id, INT32_INFINITY, s)] else []
  }

  function RegistrationEvents(s: Service, initialized: bool): seq<Event> {
    [OnPreInit(s)] + if initialized then [OnInit(s)] else []
  }

  lemma RegistrationConsistent(t: seq<Event>, ops: seq<ServiceOpInfo>, init: bool, services: ServiceMap, g: Graph,
                               s: Service)
    requires Consistent(t, ops, init, services, g) && s.id !in services
    ensures Consistent(t + RegistrationEvents(s, init), ops + RegistrationOps(s, init), init,
                       services[s.id := RegistrationInfo(s, init)], g)
  {
    hide Called, Lists, DependenciesFirst, WellFormed;
    var op := ServiceOpInfo(s.id, RegistrationInfo(s, init).order, s);
    CalledOneMore(t, ops, op);
    if init {
      assert RegistrationEvents(s, init) == [OnPreInit(s), OnInit(s)];
      ListsOneMore(ops, services, op, RegistrationInfo(s, init));
      OrderOneMoreOp(g, ops, op);
    } else {
      assert RegistrationEvents(s, init) == [OnPreInit(s)];
      assert ops + [] == ops;
    }
  }
}
