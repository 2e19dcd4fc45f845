/** Teardown of the service manager after any registrations and unregistrations, before and after `Init`. */
module ServiceTeardown {
  import opened ServiceGraph
  import opened Sequences
  import opened ServiceOps
  import opened ServiceOrder
  import opened ServiceIndex
  import opened ServiceTrace
  import opened ServiceMgr

  /** Call `j` after `first` registers a service while none of its class is registered. */
  ghost predicate Effects(first: seq<Call>, later: seq<Call>, j: int) {
    && 0 <= j < |later| && later[j].Register?
    && later[j].s.id !in Registered(first + later[..j])
  }

  /** Service `x` was registered at `Init` or later, unregistered, and registered again. */
  ghost predicate RegisteredAgain(first: seq<Call>, later: seq<Call>, x: Service) {
    exists j :: Again(first, later, x, j)
  }

  ghost predicate Again(first: seq<Call>, later: seq<Call>, x: Service, j: int) {
    && Effects(first, later, j) && later[j].s == x
    && (WasInitialised(first, x) || EffectedBefore(first, later, x, j))
  }

  ghost predicate WasInitialised(first: seq<Call>, x: Service) {
    x.id in Registered(first) && Registered(first)[x.id] == x
  }

  ghost predicate EffectedBefore(first: seq<Call>, later: seq<Call>, x: Service, j: int) {
    exists i :: i < j && Effects(first, later, i) && later[i].s == x
  }

  lemma EffectsEarlier(first: seq<Call>, later: seq<Call>, n: nat, j: int)
    requires n <= |later|
    ensures Effects(first, later[..n], j) <==> j < n && Effects(first, later, j)
  {
    if 0 <= j < n {
      assert later[..n][..j] == later[..j];
    }
  }

  /** A service is effected at all exactly if some call effects it. */
  lemma {:induction false} EffectedOnce(first: seq<Call>, later: seq<Call>, x: Service)
    ensures x in Effected(first, later) <==> EffectedBefore(first, later, x, |later|)
  {
    if later != [] {
      var n := |later| - 1;
      EffectedOnce(first, later[..n], x);
      BeforeStep(first, later, x);
    }
  }

  lemma BeforeEarlier(first: seq<Call>, later: seq<Call>, x: Service, n: nat, j: int)
    requires j <= n <= |later|
    ensures EffectedBefore(first, later[..n], x, j) <==> EffectedBefore(first, later, x, j)
  {
    if i :| i < j && Effects(first, later, i) && later[i].s == x {
      EffectsEarlier(first, later, n, i);
      assert later[..n][i].s == x;
    }
    if i :| i < j && Effects(first, later[..n], i) && later[..n][i].s == x {
      EffectsEarlier(first, later, n, i);
      assert later[i].s == x;
    }
  }

  lemma BeforeStep(first: seq<Call>, later: seq<Call>, x: Service)
    requires later != []
    ensures var n := |later| - 1;
            EffectedBefore(first, later, x, |later|) <==>
            EffectedBefore(first, later[..n], x, n) || (Effects(first, later, n) && later[n].s == x)
  {
    BeforeEarlier(first, later, x, |later| - 1, |later| - 1);
  }

  /** How often a service is initialised: once at `Init` if it was registered then, and once for each later call that
      effects it. */
  function Initialised(first: seq<Call>, later: seq<Call>, x: Service): nat {
    (if x.id in Registered(first) && Registered(first)[x.id] == x then 1 else 0) + multiset(Effected(first, later))[x]
  }

  /** More than once exactly if it was registered again. */
  lemma {:induction false} InitialisedTwice(first: seq<Call>, later: seq<Call>, x: Service)
    ensures Initialised(first, later, x) > 1 <==> RegisteredAgain(first, later, x)
    ensures Initialised(first, later, x) > 0 <==> WasInitialised(first, x) || EffectedBefore(first, later, x, |later|)
  {
    EffectedOnce(first, later, x);
    if later != [] {
      var n := |later| - 1;
      var past := later[..n];
      InitialisedTwice(first, past, x);
      BeforeStep(first, later, x);
      AgainStep(first, later, x);
      assert Effects(first, later, n) && later[n].s == x ==>
          multiset(Effected(first, later))[x] == multiset(Effected(first, past))[x] + 1;
    }
  }

  lemma AgainStep(first: seq<Call>, later: seq<Call>, x: Service)
    requires later != []
    ensures var n := |later| - 1;
            RegisteredAgain(first, later, x) <==>
            || RegisteredAgain(first, later[..n], x)
            || (Effects(first, later, n) && later[n].s == x
                && (WasInitialised(first, x) || EffectedBefore(first, later[..n], x, n)))
  {
    var n := |later| - 1;
    BeforeEarlier(first, later, x, n, n);
    if j :| Again(first, later, x, j) {
      if j < n {
        AgainEarlier(first, later, x, n, j);
      }
    }
    if j :| Again(first, later[..n], x, j) {
      AgainEarlier(first, later, x, n, j);
    }
    if Effects(first, later, n) && later[n].s == x && (WasInitialised(first, x) || EffectedBefore(first, later, x, n)) {
      assert Again(first, later, x, n);
    }
  }

  lemma AgainEarlier(first: seq<Call>, later: seq<Call>, x: Service, n: nat, j: int)
    requires j < n <= |later|
    ensures Again(first, later[..n], x, j) <==> Again(first, later, x, j)
  {
    EffectsEarlier(first, later, n, j);
    BeforeEarlier(first, later, x, n, j);
    assert 0 <= j ==> later[..n][j] == later[j];
  }

  /** What is registered at the end was registered at `Init` or effected later. */
  lemma {:induction false} RegisteredIsInitialised(first: seq<Call>, later: seq<Call>, k: Rtti)
    requires k in Registered(first + later)
    ensures var x := Registered(first + later)[k]; WasInitialised(first, x) || x in Effected(first, later)
  {
    RegisteredById(first + later);
    if later == [] {
      assert first + later == first;
    } else {
      var n := |later| - 1;
      assert first + later == (first + later[..n]) + [later[n]];
      LatestStep(first + later[..n], later[n]);
      if k in Registered(first + later[..n]) && Registered(first + later[..n])[k] == Registered(first + later)[k] {
        RegisteredIsInitialised(first, later[..n], k);
      }
    }
  }

  lemma {:induction false} ReversedCounts(s: seq<Service>)
    ensures multiset(Reversed(s)) == multiset(s)
  {
    if s != [] {
      ReversedCounts(s[1..]);
      assert s == [s[0]] + s[1..];
    }
  }

  /** Every registered service is destroyed once. */
  ghost predicate AllDestroyedOnce(destroys: seq<Service>, registered: map<Rtti, Service>) {
    forall k | k in registered :: multiset(destroys)[registered[k]] == 1
  }

  /** None of the registered services was registered again. */
  ghost predicate NoneAgain(first: seq<Call>, later: seq<Call>) {
    forall k | k in Registered(first + later) :: !RegisteredAgain(first, later, Registered(first + later)[k])
  }

  lemma DestroyedOnce(first: seq<Call>, later: seq<Call>, atInit: seq<Service>, inits: seq<Service>)
    requires EachOnce(atInit, Registered(first)) && inits == atInit + Effected(first, later)
    ensures AllDestroyedOnce(Reversed(inits), Registered(first + later)) <==> NoneAgain(first, later)
    ensures forall x :: multiset(Reversed(inits))[x] == Initialised(first, later, x)
  {
    ReversedCounts(inits);
    hide Effected;
    forall x
      ensures multiset(inits)[x] == Initialised(first, later, x)
    {
      CountedAtInit(first, atInit, x);
    }
    forall k | k in Registered(first + later)
      ensures Initialised(first, later, Registered(first + later)[k]) == 1 <==>
              !RegisteredAgain(first, later, Registered(first + later)[k])
    {
      RegisteredIsInitialised(first, later, k);
      EffectedOnce(first, later, Registered(first + later)[k]);
      InitialisedTwice(first, later, Registered(first + later)[k]);
    }
  }

  lemma CountedAtInit(first: seq<Call>, atInit: seq<Service>, x: Service)
    requires EachOnce(atInit, Registered(first))
    ensures multiset(atInit)[x] == if WasInitialised(first, x) then 1 else 0
  {
    if x in atInit {
      var ids := Ids(atInit);
      forall i, j | 0 <= i < j < |atInit|
        ensures atInit[i] != atInit[j]
      {
        assert ids[i] != ids[j];
      }
      OnceIn(atInit, x);
    }
  }

  /** One call of the program on the manager. */
  method Make(m: Manager, call: Call)
    requires m.Valid()
    modifies m
    ensures m.Valid() && m.calls == old(m.calls) + [call] && m.initialized == old(m.initialized)
    ensures old(!m.initialized && m.Orderly()) ==> m.Orderly()
    ensures old(Announced(m.trace, m.calls)) ==> Announced(m.trace, m.calls)
    ensures old(m.initialized && Called(m.trace, m.opList)) ==>
              && Called(m.trace, m.opList)
              && OpServices(m.opList) == old(OpServices(m.opList)) +
                                         if call.Register? && call.s.id !in old(m.services) then [call.s] else []
  {
    hide Called, Consistent, Holds, Indexes, Iterates, Announced;
    match call {
      case Register(s) =>
        if m.initialized && s.id !in m.services && Called(m.trace, m.opList) {
          CalledOneMore(m.trace, m.opList, ServiceOpInfo(s.id, INT32_INFINITY, s));
          RegistrationGrows(m.opList, s);
        }
        m.RegisterService(s);
      case UnRegister(s) =>
        if !m.initialized && m.Orderly() {
          StillConsistent(m.trace, m.opList, m.services, m.services - {s.id}, m.graph);
        }
        m.UnRegisterService(s);
    }
  }

  lemma RegistrationGrows(ops: seq<ServiceOpInfo>, s: Service)
    ensures RegistrationEvents(s, true) == [OnPreInit(s), OnInit(s)]
    ensures RegistrationOps(s, true) == [ServiceOpInfo(s.id, INT32_INFINITY, s)]
    ensures OpServices(ops + RegistrationOps(s, true)) == OpServices(ops) + [s]
  {
  }

  lemma StillConsistent(t: seq<Event>, ops: seq<ServiceOpInfo>, services: ServiceMap, services': ServiceMap, g: Graph)
    requires Consistent(t, ops, false, services, g)
    ensures Consistent(t, ops, false, services', g)
  {
  }

  /** Calls of the program, one after the other. */
  method MakeAll(m: Manager, calls: seq<Call>)
    requires m.Valid()
    modifies m
    ensures m.Valid() && m.calls == old(m.calls) + calls && m.initialized == old(m.initialized)
    ensures old(!m.initialized && m.Orderly()) ==> m.Orderly()
    ensures old(Announced(m.trace, m.calls)) ==> Announced(m.trace, m.calls)
    ensures old(m.initialized && Called(m.trace, m.opList)) ==>
              && Called(m.trace, m.opList)
              && OpServices(m.opList) == old(OpServices(m.opList)) + Effected(old(m.calls), calls)
  {
    hide Called, Consistent, Holds, Indexes, Iterates, Unordered, Effected, Registered, OpServices, Announced;
    ghost var first, listed := m.calls, OpServices(m.opList);
    NothingEffected(first);
    assert first + calls[..0] == first && listed + [] == listed && calls[..0] == [];
    var i := 0;
    while i < |calls|
      invariant i <= |calls| && m.Valid() && m.calls == first + calls[..i] && m.initialized == old(m.initialized)
      invariant old(!m.initialized && m.Orderly()) ==> m.Orderly()
      invariant old(Announced(m.trace, m.calls)) ==> Announced(m.trace, m.calls)
      invariant old(m.initialized && Called(m.trace, m.opList)) ==>
                  Called(m.trace, m.opList) && OpServices(m.opList) == listed + Effected(first, calls[..i])
    {
      HoldsKeys(m.services, m.calls);
      EffectedStep(first, calls, i);
      Make(m, calls[i]);
      i := i + 1;
    }
    assert calls[..i] == calls;
  }

  /** Any calls, initialisation, any further calls, and teardown. The destroy sequence is always the exact reverse of
      the init sequence: the services registered at `Init`, each once, and then every later registration that took
      effect. Each service registered at the end is destroyed exactly once if and only if none of them was registered
      again after it had been initialised. Every registration that took effect is announced once, in order; no service
      is initialised before it is announced, nor destroyed before it is initialised. */
  method Teardown(first: seq<Call>, later: seq<Call>)
    returns (inits: seq<Service>, destroys: seq<Service>, trace: seq<Event>)
    ensures inits == Inits(trace) && destroys == Destroys(trace) && InOrder(trace)
    ensures PreInits(trace) == Effected([], first + later)
    ensures destroys == Reversed(inits)
    ensures exists atInit ::
              && EachOnce(atInit, Registered(first)) && inits == atInit + Effected(first, later)
              && (WellFormed(DependencyGraph(first)) ==> DependenciesFirst(DependencyGraph(first), Ids(atInit)))
    ensures AllDestroyedOnce(destroys, Registered(first + later)) <==> NoneAgain(first, later)
  {
    hide Consistent, Holds, Indexes, Iterates, Unordered, WellFormed, DependenciesFirst, EachOnce, Distinct, GraphOf,
      DependencyGraph, Registered, Called, Effected, AllDestroyedOnce, NoneAgain, PreInits,
      InOrder;
    var m := new Manager();
    NothingAnnounced();
    MakeAll(m, first);
    assert [] + first == first;
    GraphIsHistory(m.services, m.calls);
    m.Init();
    InitialisedOnce(m.trace, m.opList, m.services, m.graph, m.calls);
    CalledOf(m.trace, m.opList, m.services, m.graph);
    ghost var atInit := Inits(m.trace);
    MakeAll(m, later);
    CalledMeans(m.trace, m.opList);
    inits := Inits(m.trace);
    m.ShutDown();
    destroys, trace := Destroys(m.trace), m.trace;
    assert [] + Reversed(inits) == Reversed(inits);
    DestroyedOnce(first, later, atInit, inits);
  }

  /** A service registered before `Init`, then unregistered and registered again, is initialised twice, and so it is
      destroyed twice: the list that `ShutDown` goes along still holds its first entry. */
  lemma RegisteredAgainTwice(x: Service)
    ensures var first, later := [Register(x)], [UnRegister(x), Register(x)];
            !NoneAgain(first, later) && Initialised(first, later, x) > 1
  {
    var first, later := [Register(x)], [UnRegister(x), Register(x)];
    LatestStep([], Register(x));
    LatestStep(first, UnRegister(x));
    LatestStep(first + [UnRegister(x)], Register(x));
    assert [] + first == first && first + later[..1] == first + [UnRegister(x)];
    assert first + later == first + [UnRegister(x)] + [Register(x)];
    assert Effects(first, later, 1);
    assert Again(first, later, x, 1);
    InitialisedTwice(first, later, x);
  }

  lemma CalledOf(t: seq<Event>, ops: seq<ServiceOpInfo>, services: ServiceMap, g: Graph)
    requires Consistent(t, ops, true, services, g)
    ensures Called(t, ops) && OpServices(ops) == Inits(t)
  {
  }

  lemma CalledMeans(t: seq<Event>, ops: seq<ServiceOpInfo>)
    requires Called(t, ops)
    ensures Inits(t) == OpServices(ops) && Destroys(t) == []
  {
  }

  lemma NothingEffected(first: seq<Call>)
    ensures Effected(first, []) == []
  {
  }

  lemma EffectedStep(first: seq<Call>, later: seq<Call>, i: nat)
    requires i < |later|
    ensures Effected(first, later[..i + 1]) ==
            Effected(first, later[..i]) +
            if later[i].Register? && later[i].s.id !in Registered(first + later[..i]) then [later[i].s] else []
    ensures first + later[..i + 1] == first + later[..i] + [later[i]]
  {
    assert later[..i + 1][..i] == later[..i];
  }
}
