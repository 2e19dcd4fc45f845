/** The service manager of XLN/Core/Foundation/ServiceMgr.cpp and ServiceMgr.h: registration, dependency order,
    initialisation and teardown, and lookup. */
module ServiceMgr {
  import opened Wrappers
  import opened ServiceGraph
  import opened Sequences
  import opened ServiceOps
  import opened ServiceOrder
  import opened ServiceIndex
  import opened ServiceTrace

  lemma ProgressHolds(s: ServiceMap, s': ServiceMap, calls: seq<Call>)
    requires Progress(s, s') && Holds(s, calls)
    ensures Holds(s', calls)
  {
    hide Registered, AllResolvable, GraphOf;
  }

  lemma ListedByAddress(keys: seq<Rtti>, services: ServiceMap)
    requires Iterates(keys, services) && ByAddress(keys)
    ensures ByOrderAndAddress(Sorted(Ops(keys, services)))
  {
    assert OpIds(Ops(keys, services)) == keys;
    SortedByAddress(Ops(keys, services));
  }

  lemma NothingLeft()
    ensures Iterates([], map[]) && ByAddress([]) && Holds(map[], []) && Indexes(map[], [])
            && Unordered(map[])
  {
  }

  class Manager {
    var services: ServiceMap
    var keys: seq<Rtti>                 // the order in which the map is iterated
    var fastSearch: map<Rtti, Service>
    var opList: seq<ServiceOpInfo>
    var initialized: bool

    var trace: seq<Event>               // the callbacks made so far
    ghost var calls: seq<Call>          // the registrations and unregistrations since the start or the last teardown
    ghost var graph: Graph              // the dependencies when `Init` ran

    ghost predicate Valid()
      reads this
    {
      && Iterates(keys, services) && ByAddress(keys)
      && Holds(services, calls) && Indexes(fastSearch, calls)
      && (!initialized ==> Unordered(services))
    }

    ghost predicate Orderly()
      reads this
    {
      Consistent(trace, opList, initialized, services, graph)
    }

    constructor ()
      ensures Valid() && Orderly() && !initialized && services == map[] && calls == [] && trace == []
    {
      services, keys, fastSearch, opList, initialized := map[], [], map[], [], false;
      trace, calls, graph := [], [], map[];
    }

    /** Registers a service, unless one of its class is there already. */
    method RegisterService(service: Service)
      requires Valid()
      modifies this
      ensures Valid() && calls == old(calls) + [Register(service)]
      ensures initialized == old(initialized) && graph == old(graph)
      ensures old(Orderly()) ==> Orderly()
      ensures old(Announced(trace, calls)) ==> Announced(trace, calls)
      ensures service.id in old(services) ==>
                services == old(services) && fastSearch == old(fastSearch) && opList == old(opList)
                && trace == old(trace)
      ensures service.id !in old(services) ==>
                && services == old(services)[service.id :=
                               ServiceInfo(service.dep, if initialized then 0 else -1, service)]
                && opList == old(opList) + RegistrationOps(service, initialized)
                && trace == old(trace) + RegistrationEvents(service, initialized)
    {
      hide Consistent, Holds, Indexes, Latest, Inserted, DerivesFrom, Announced, ByAddress, Registered;
      HoldsKeys(services, calls);
      if service.id in services {
        if Announced(trace, calls) {
          NothingMoreAnnounced(trace, calls, Register(service));
        }
        IndexKept(fastSearch, calls, service);
        RepeatedRegistrationHolds(services, calls, service);
        calls := calls + [Register(service)];
        return;
      }
      trace := trace + [OnPreInit(service)];
      if initialized {
        trace := trace + [OnInit(service)];
      }
      assert trace == old(trace) + RegistrationEvents(service, initialized);
      var info := ServiceInfo(service.dep, -1, service);
      if initialized {
        info := info.(order := INT32_INFINITY);
        opList := opList + [ServiceOpInfo(service.id, INT32_INFINITY, service)];
      }
      assert opList == old(opList) + RegistrationOps(service, initialized);
      services := services[service.id := info];
      KeyInserted(keys, service.id);
      KeyInPlace(keys, service.id);
      keys := Inserted(keys, service.id);
      IndexChain(service);
      IndexEntered(old(fastSearch), fastSearch, calls, service);
      RegistrationHolds(old(services), calls, service, info);
      if old(Orderly()) {
        RegistrationConsistent(old(trace), old(opList), initialized, old(services), graph, service);
      }
      if old(Announced(trace, calls)) {
        RegistrationAnnounced(old(trace), calls, service, initialized);
      }
      calls := calls + [Register(service)];
    }

    /** Takes a service off the registry, and its class and all its base classes off the index; not off the list of
        services that `ShutDown` destroys. */
    method UnRegisterService(service: Service)
      requires Valid()
      modifies this`services, this`keys, this`fastSearch, this`calls
      ensures Valid() && calls == old(calls) + [UnRegister(service)]
      ensures services == old(services) - {service.id}
      ensures old(Announced(trace, calls)) ==> Announced(trace, calls)
    {
      hide Indexes, Latest, Without, Holds, Announced, ByAddress;
      if Announced(trace, calls) {
        NothingMoreAnnounced(trace, calls, UnRegister(service));
      }
      UnRegistrationHolds(services, calls, service);
      services := services - {service.id};
      KeyRemoved(keys, service.id);
      KeyOutOfPlace(keys, service.id);
      keys := Without(keys, service.id);
      var id := Some(service.id);
      while id.Some?
        invariant forall c :: c in fastSearch <==>
                              c in old(fastSearch) && !(DerivesFrom(service.id, c)
                                                        && !(id.Some? && DerivesFrom(id.value, c)))
        invariant forall c | c in fastSearch :: fastSearch[c] == old(fastSearch)[c]
        invariant id.Some? ==> forall c | DerivesFrom(id.value, c) :: DerivesFrom(service.id, c)
        modifies this`fastSearch
        decreases id
      {
        fastSearch := fastSearch - {id.value};
        NotOwnBase(id.value);
        id := id.value.base;
      }
      IndexErased(old(fastSearch), fastSearch, calls, service);
      calls := calls + [UnRegister(service)];
    }

    /** The service to be used as a `c`: registered, and a `c`. */
    method GetService(c: Rtti) returns (r: Option<Service>)
      requires Valid()
      ensures r == Latest(calls, c)
      ensures r.Some? ==> DerivesFrom(r.value.id, c) && r.value.id in services
                          && services[r.value.id].service == r.value
    {
      r := if c in fastSearch then Some(fastSearch[c]) else None;
      if r.Some? {
        LatestIsRegistered(calls, c);
      }
    }

    /** Orders the services by their dependencies and lists them in that order. */
    method BuildDep()
      requires Iterates(keys, services) && ByAddress(keys)
      modifies this`services, this`opList
      ensures Progress(old(services), services) && Iterates(keys, services)
      ensures opList == Sorted(old(opList) + Ops(keys, services))
      ensures old(opList) == [] ==> Lists(opList, services) && ByOrderAndAddress(opList)
      ensures old(Unordered(services)) && WellFormed(GraphOf(old(services))) ==> Measured(services)
      ensures old(opList) == [] && Measured(services) ==> DependenciesFirst(GraphOf(services), OpIds(opList))
    {
      hide GraphOf, UniquelyResolved, Acyclic, Ranked, OnPath, Depth, Memoised, Lists, Measured, LongestChain,
        DependenciesFirst,
        Sorted, Ordered, OfOrder, AllResolvable, ByAddress, ByOrderAndAddress;
      ghost var g, services0 := GraphOf(services), services;
      ghost var wellFormed := Unordered(services) && WellFormed(g);
      ghost var rank := SomeRank(g);
      GraphKeys(services);
      if wellFormed {
        NothingMemoised(services, g, rank);
      }
      var i := 0;
      while i < |keys|
        invariant i <= |keys|
        invariant Iterates(keys, services) && Progress(services0, services) && GraphOf(services) == g
        invariant services.Keys == g.Keys
        invariant wellFormed ==> Memoised(services, g, rank) && Finished(services, keys[..i])
        modifies this`services
      {
        var rootID := [keys[i]];
        ghost var before := services;
        GraphEntry(services, keys[i]);
        if wellFormed {
          RootOnPath(g, rank, keys[i]);
        }
        var order := RecurrsiveBuildDep(rootID, keys[i], rank);
        ProgressKeepsGraph(before, services);
        ProgressAdds(services0, before, services);
        if wellFormed {
          OneMoreFinished(before, services, keys, i);
        }
        i := i + 1;
      }
      if wellFormed {
        assert keys[..i] == keys;
        MemoisedIsMeasured(services, keys, rank);
      }
      opList := Sorted(opList + Ops(keys, services));
      if old(opList) == [] {
        assert [] + Ops(keys, services) == Ops(keys, services);
        SortedLists(keys, services);
        ListedByAddress(keys, services);
        SortedSorts(Ops(keys, services));
        if Measured(services) {
          OrderedIsDependenciesFirst(services, opList);
        }
      }
    }

    /** Orders the registered services and initialises them in that order. */
    method Init()
      requires Valid()
      modifies this
      ensures Valid() && initialized && calls == old(calls) && graph == GraphOf(old(services))
      ensures services.Keys == old(services).Keys
      ensures trace == old(trace) + Initialisations(opList)
      ensures old(opList) == [] ==> ByOrderAndAddress(opList)
      ensures old(Orderly() && !initialized) ==> Orderly() && (WellFormed(graph) ==> Measured(services))
      ensures old(Orderly() && !initialized && Announced(trace, calls)) ==> Announced(trace, calls)
    {
      hide Indexes, Holds, Lists, DependenciesFirst, Measured, WellFormed, Sorted, Ops, GraphOf, Iterates,
        AllResolvable, Announced, Initialisations, Called, Progress, Unordered, ByAddress, ByOrderAndAddress;
      initialized := true;
      graph := GraphOf(services);
      BuildDep();
      ProgressKeepsGraph(old(services), services);
      GraphKeys(services);
      GraphKeys(old(services));
      ProgressHolds(old(services), services, calls);
      NothingInitialised(trace);
      var i := 0;
      while i < |opList|
        invariant i <= |opList| && trace == old(trace) + Initialisations(opList[..i])
        modifies this`trace
      {
        OneMoreInitialised(old(trace), opList, i);
        trace := trace + [OnInit(opList[i].service)];
        i := i + 1;
      }
      assert opList[..i] == opList;
      if old(Orderly() && !initialized) {
        CalledInits(old(trace), opList);
        if old(Announced(trace, calls)) {
          InitAnnounced(old(trace), opList, services, calls);
        }
      }
    }

    /** Destroys the listed services, last first, and forgets everything. */
    method ShutDown()
      requires Valid()
      modifies this
      ensures Valid() && services == map[] && fastSearch == map[] && opList == [] && calls == []
              && initialized == old(initialized)
      ensures Inits(trace) == Inits(old(trace))
      ensures Destroys(trace) == Destroys(old(trace)) + Reversed(OpServices(old(opList)))
      ensures PreInits(trace) == PreInits(old(trace))
      ensures old(InOrder(trace) && Called(trace, opList)) ==> InOrder(trace)
    {
      hide Iterates, Holds, Indexes, DestroyedDownTo, OpServices, Reversed, Inits, Destroys, PreInits, InOrder;
      ghost var orderly := InOrder(trace) && Inits(trace) == OpServices(opList);
      var i: nat := |opList|;
      DestroyEnds(trace, trace, opList);
      while i > 0
        invariant i <= |opList| && DestroyedDownTo(old(trace), trace, opList, i)
        invariant PreInits(trace) == PreInits(old(trace)) && Inits(trace) == Inits(old(trace))
        invariant orderly ==> InOrder(trace)
        modifies this`trace
      {
        i := i - 1;
        DestroyStep(old(trace), trace, opList, i);
        OneDestroyed(trace, opList, i);
        trace := trace + [OnDestroy(opList[i].service)];
      }
      DestroyEnds(old(trace), trace, opList);
      NothingLeft();
      opList, services, keys, fastSearch := [], map[], [], map[];
      calls := [];
    }

    /** The walk up a base chain. */
    method IsKindOf(id: Rtti, c: Rtti) returns (b: bool)
      ensures b == DerivesFrom(id, c)
    {
      if id == c {
        return true;
      }
      var base := id.base;
      while base.Some?
        invariant DerivesFrom(id, c) == (base.Some? && DerivesFrom(base.value, c))
        decreases base
      {
        if base.value == c {
          return true;
        }
        base := base.value.base;
      }
      return false;
    }

    /** The first registered service, in the map's order, that implements `d`. */
    method FindImplementer(d: Rtti) returns (r: Option<Rtti>)
      requires Iterates(keys, services)
      ensures r.Some? ==> r.value in services && DerivesFrom(r.value, d)
      ensures r.None? ==> !Resolvable(GraphOf(services), d)
    {
      var i := 0;
      while i < |keys|
        invariant i <= |keys|
        invariant forall j | 0 <= j < i :: !DerivesFrom(keys[j], d)
      {
        var b := IsKindOf(keys[i], d);
        if b {
          return Some(keys[i]);
        }
        i := i + 1;
      }
      return None;
    }

    /** A well-formed graph, met on a path that leads to service `id`, with only true orders memoised. */
    ghost predicate Sound(g: Graph, rank: map<Rtti, nat>, path: seq<Rtti>, id: Rtti)
      reads this
    {
      && g == GraphOf(services) && UniquelyResolved(g) && Ranked(g, rank)
      && OnPath(g, rank, path, id) && Memoised(services, g, rank)
    }

    method RecurrsiveBuildDep(parentIDs: seq<Rtti>, id: Rtti, ghost rank: map<Rtti, nat>) returns (order: int)
      requires Iterates(keys, services) && id in services
      modifies this`services
      ensures Iterates(keys, services) && Progress(old(services), services)
      ensures order == -1 || order == services[id].order || (order == 0 && services[id].dep == [])
      ensures var g := GraphOf(old(services));
              old(Sound(g, rank, parentIDs, id)) ==>
                && Sound(g, rank, parentIDs, id) && Kept(old(services), services)
                && order == Depth(g, rank, id)
                && (g[id] != [] ==> services[id].order != -1)
      decreases DependedUpon(GraphOf(services)) - Elements(parentIDs)
    {
      hide GraphOf, AllResolvable, OnPath, UniquelyResolved, Ranked, Depth, DepthOver;
      ghost var g, services0 := GraphOf(services), services;
      ghost var sound := Sound(g, rank, parentIDs, id);
      GraphEntry(services, id);
      var dep := services[id].dep;
      if services[id].order != -1 {
        return services[id].order;
      }
      if dep == [] {
        if sound {
          DepthWithout(g, rank, id);
        }
        return 0;
      }
      var maxDep := -1;
      var i := 0;
      assert AllResolvable(g, dep[..0]) by {
        NothingResolved(g);
      }
      while i < |dep|
        invariant i <= |dep|
        invariant Iterates(keys, services) && Progress(services0, services) && GraphOf(services) == g
        invariant AllResolvable(g, dep[..i])
        invariant sound ==> Sound(g, rank, parentIDs, id) && Kept(services0, services)
        invariant sound ==> maxDep == MaxSoFar(g, rank, id, i)
      {
        var j := 0;
        while j < |parentIDs|
          invariant j <= |parentIDs| && dep[i] !in parentIDs[..j]
        {
          if parentIDs[j] == dep[i] {
            if sound {
              NoCycleOnPath(g, rank, parentIDs, id, dep[i]);
            }
            return -1;
          }
          j := j + 1;
        }
        assert parentIDs[..j] == parentIDs;
        var found := FindImplementer(dep[i]);
        if found.None? {
          if sound {
            DependenciesResolve(g, id, dep[i]);
          }
          return -1;
        }
        var ids := parentIDs + [dep[i]];
        PathShrinksRest(services, parentIDs, id, dep[i]);
        ghost var before := services;
        if sound {
          PathExtends(g, rank, parentIDs, id, dep[i], found.value);
        }
        var below := RecurrsiveBuildDep(ids, found.value, rank);
        var curDep := 1 + below;
        ProgressKeepsGraph(before, services);
        ProgressAdds(services0, before, services);
        OneMoreResolved(g, dep, i, found.value);
        if sound {
          MaxStep(g, rank, id, i, found.value);
        }
        if maxDep < curDep {
          maxDep := curDep;
        }
        i := i + 1;
      }
      assert dep[..i] == dep;
      OrderSet(services0, services, id, maxDep);
      if sound {
        OrderSetSound(g, rank, services, id, maxDep);
      }
      services := services[id := services[id].(order := maxDep)];
      return maxDep;
    }

    /** Enters a service for its class and all its base classes. */
    method IndexChain(service: Service)
      modifies this`fastSearch
      ensures forall c :: c in fastSearch <==> c in old(fastSearch) || DerivesFrom(service.id, c)
      ensures forall c | c in fastSearch ::
                fastSearch[c] == if DerivesFrom(service.id, c) then service else old(fastSearch)[c]
    {
      var id := Some(service.id);
      while id.Some?
        invariant forall c :: c in fastSearch <==>
                              c in old(fastSearch) || (DerivesFrom(service.id, c)
                                                       && !(id.Some? && DerivesFrom(id.value, c)))
        invariant forall c | c in fastSearch ::
                    fastSearch[c] == if DerivesFrom(service.id, c) && !(id.Some? && DerivesFrom(id.value, c))
                    then service else old(fastSearch)[c]
        invariant id.Some? ==> forall c | DerivesFrom(id.value, c) :: DerivesFrom(service.id, c)
        decreases id
      {
        fastSearch := fastSearch[id.value := service];
        NotOwnBase(id.value);
        id := id.value.base;
      }
    }
  }

  // ---------- A whole lifetime ----------

  function Registrations(s: seq<Service>): (r: seq<Call>)
    ensures |r| == |s| && forall i | 0 <= i < |s| :: r[i] == Register(s[i])
  {
    seq(|s|, i requires 0 <= i < |s| => Register(s[i]))
  }

  /** What the registered services depend on. */
  ghost function DependencyGraph(calls: seq<Call>): Graph {
    map k | k in Registered(calls) :: Registered(calls)[k].dep
  }

  lemma ListedOnce(ops: seq<ServiceOpInfo>, services: ServiceMap, calls: seq<Call>)
    requires Lists(ops, services) && Holds(services, calls)
    ensures Ids(OpServices(ops)) == OpIds(ops) && EachOnce(OpServices(ops), Registered(calls))
  {
    RegisteredById(calls);
    forall i | 0 <= i < |ops|
      ensures ops[i].service.id == ops[i].id && Registered(calls)[ops[i].id] == ops[i].service
    {
      assert ops[i] in ops;
    }
    forall k | k in services
      ensures Registered(calls)[k] in OpServices(ops)
    {
      assert k in OpIds(ops);
      var i :| 0 <= i < |ops| && OpIds(ops)[i] == k;
      assert OpServices(ops)[i] == Registered(calls)[k];
    }
  }

  lemma GraphIsHistory(services: ServiceMap, calls: seq<Call>)
    requires Holds(services, calls)
    ensures GraphOf(services) == DependencyGraph(calls)
  {
  }

  /** Some registrations, initialisation, more registrations, and teardown: every service is announced once, in the
      order of registration, initialised once and destroyed once, in exactly the reverse order, and the dependencies
      present at initialisation are respected. No service is initialised before it is announced, nor destroyed before
      it is initialised. */
  method Lifetime(first: seq<Service>, later: seq<Service>)
    returns (inits: seq<Service>, destroys: seq<Service>, trace: seq<Event>)
    ensures inits == Inits(trace) && destroys == Destroys(trace) && InOrder(trace)
    ensures PreInits(trace) == Effected([], Registrations(first + later))
    ensures EachOnce(PreInits(trace), Registered(Registrations(first + later)))
    ensures EachOnce(inits, Registered(Registrations(first + later)))
    ensures destroys == Reversed(inits)
    ensures var g := DependencyGraph(Registrations(first));
            WellFormed(g) ==> DependenciesFirst(g, Ids(inits)) && DependentsFirst(g, Ids(destroys))
  {
    hide Consistent, Holds, Indexes, Iterates, Unordered, WellFormed, DependenciesFirst, DependentsFirst, EachOnce,
      Distinct, GraphOf, DependencyGraph, Registered, Measured, PreInits, InOrder, Effected;
    var m := new Manager();
    NothingAnnounced();
    var i := 0;
    while i < |first|
      invariant i <= |first| && m.Valid() && m.Orderly() && !m.initialized
      invariant m.calls == Registrations(first[..i]) && Announced(m.trace, m.calls)
    {
      m.RegisterService(first[i]);
      i := i + 1;
    }
    assert first[..i] == first;
    GraphIsHistory(m.services, m.calls);
    m.Init();
    i := 0;
    while i < |later|
      invariant i <= |later| && m.Valid() && m.Orderly() && m.initialized
      invariant m.calls == Registrations(first + later[..i]) && Announced(m.trace, m.calls)
      invariant m.graph == DependencyGraph(Registrations(first))
    {
      m.RegisterService(later[i]);
      i := i + 1;
    }
    assert later[..i] == later;
    inits := Inits(m.trace);
    InitialisedOnce(m.trace, m.opList, m.services, m.graph, m.calls);
    EffectedEachOnce(m.calls);
    m.ShutDown();
    destroys, trace := Destroys(m.trace), m.trace;
    assert [] + Reversed(inits) == Reversed(inits);
    if WellFormed(DependencyGraph(Registrations(first))) {
      ReversedDependentsFirst(DependencyGraph(Registrations(first)), inits);
    }
  }

  lemma InitialisedOnce(t: seq<Event>, ops: seq<ServiceOpInfo>, services: ServiceMap, g: Graph, calls: seq<Call>)
    requires Consistent(t, ops, true, services, g) && Holds(services, calls)
    ensures Inits(t) == OpServices(ops) && Destroys(t) == [] && EachOnce(Inits(t), Registered(calls))
    ensures WellFormed(g) ==> DependenciesFirst(g, Ids(Inits(t)))
  {
    hide WellFormed, DependenciesFirst, Lists, Holds, EachOnce;
    ListedOnce(ops, services, calls);
  }
}
