/** The callbacks that services get, in the order in which they get them. */
module ServiceTrace {
  import opened ServiceGraph
  import opened Sequences
  import opened ServiceOps
  import opened ServiceIndex

  /** The services in the order of their `OnPreInit` callbacks. */
  function PreInits(t: seq<Event>): seq<Service> {
    if t == [] then []
    else PreInits(t[..|t| - 1]) + if t[|t| - 1].OnPreInit? then [t[|t| - 1].s] else []
  }

  lemma PreInitStep(t: seq<Event>, e: Event)
    ensures PreInits(t + [e]) == if e.OnPreInit? then PreInits(t) + [e.s] else PreInits(t)
  {
    assert (t + [e])[..|t|] == t;
  }

  lemma {:induction false} TraceMembers(t: seq<Event>)
    ensures forall x :: x in PreInits(t) <==> OnPreInit(x) in t
    ensures forall x :: x in Inits(t) <==> OnInit(x) in t
  {
    if t != [] {
      TraceMembers(t[..|t| - 1]);
      FrontAndLast(t);
    }
  }

  /** Every `OnInit` comes after an `OnPreInit` of the same service, and every `OnDestroy` after an `OnInit`. */
  ghost predicate InOrder(t: seq<Event>) {
    && (forall i | 0 <= i < |t| && t[i].OnInit? :: OnPreInit(t[i].s) in t[..i])
    && (forall i | 0 <= i < |t| && t[i].OnDestroy? :: OnInit(t[i].s) in t[..i])
  }

  lemma InOrderStep(t: seq<Event>, e: Event)
    requires InOrder(t)
    requires (e.OnInit? ==> OnPreInit(e.s) in t) && (e.OnDestroy? ==> OnInit(e.s) in t)
    ensures InOrder(t + [e])
  {
    var t' := t + [e];
    forall i | 0 <= i < |t'|
      ensures t'[..i] == if i < |t| then t[..i] else t
    {
    }
  }

  /** The services announced by `OnPreInit` are those whose registration took effect, in order. */
  ghost predicate Announced(t: seq<Event>, calls: seq<Call>) {
    PreInits(t) == Effected([], calls) && InOrder(t)
  }

  lemma NothingAnnounced()
    ensures Announced([], [])
  {
  }

  lemma EffectedByCall(calls: seq<Call>, call: Call)
    ensures Effected([], calls + [call]) ==
            Effected([], calls) + if call.Register? && call.s.id !in Registered(calls) then [call.s] else []
  {
    assert (calls + [call])[..|calls|] == calls && [] + calls == calls;
  }

  lemma RegistrationAnnounced(t: seq<Event>, calls: seq<Call>, s: Service, initialized: bool)
    requires Announced(t, calls) && s.id !in Registered(calls)
    ensures Announced(t + RegistrationEvents(s, initialized), calls + [Register(s)])
  {
    hide PreInits, InOrder, Effected, Registered;
    var p, i := OnPreInit(s), OnInit(s);
    EffectedByCall(calls, Register(s));
    PreInitStep(t, p);
    InOrderStep(t, p);
    if initialized {
      PreInitStep(t + [p], i);
      InOrderStep(t + [p], i);
      assert t + RegistrationEvents(s, true) == t + [p] + [i];
    } else {
      assert t + RegistrationEvents(s, false) == t + [p];
    }
  }

  /** Calls without effect announce nothing. */
  lemma NothingMoreAnnounced(t: seq<Event>, calls: seq<Call>, call: Call)
    requires Announced(t, calls) && (call.Register? ==> call.s.id in Registered(calls))
    ensures Announced(t, calls + [call])
  {
    hide PreInits, InOrder, Effected, Registered;
    EffectedByCall(calls, call);
  }

  lemma {:induction false} RegisteredEffected(calls: seq<Call>)
    ensures forall k | k in Registered(calls) :: Registered(calls)[k] in Effected([], calls)
  {
    if calls != [] {
      var n := |calls| - 1;
      RegisteredEffected(calls[..n]);
      assert [] + calls[..n] == calls[..n];
    }
  }

  /** The initialisation of services announced before. */
  lemma {:induction false} InitialisationsInOrder(t: seq<Event>, ops: seq<ServiceOpInfo>)
    requires InOrder(t) && forall op | op in ops :: OnPreInit(op.service) in t
    ensures InOrder(t + Initialisations(ops)) && PreInits(t + Initialisations(ops)) == PreInits(t)
    ensures t <= t + Initialisations(ops)
  {
    hide InOrder, PreInits;
    if ops == [] {
      NothingInitialised(t);
    } else {
      var n := |ops| - 1;
      var before, last := t + Initialisations(ops[..n]), ops[n];
      InitialisationsInOrder(t, ops[..n]);
      OneMoreInitialised(t, ops, n);
      assert ops[..n + 1] == ops && last in ops;
      assert forall e | e in t :: e in before;
      InOrderStep(before, OnInit(last.service));
      PreInitStep(before, OnInit(last.service));
    }
  }

  lemma InitAnnounced(t: seq<Event>, ops: seq<ServiceOpInfo>, services: ServiceMap, calls: seq<Call>)
    requires Announced(t, calls) && Lists(ops, services) && Holds(services, calls)
    ensures Announced(t + Initialisations(ops), calls)
  {
    hide InOrder, PreInits, Effected, Registered;
    RegisteredEffected(calls);
    TraceMembers(t);
    InitialisationsInOrder(t, ops);
  }

  /** The destruction of a service initialised before. */
  lemma OneDestroyed(t: seq<Event>, ops: seq<ServiceOpInfo>, i: nat)
    requires i < |ops|
    ensures InOrder(t) && Inits(t) == OpServices(ops) ==> InOrder(t + [OnDestroy(ops[i].service)])
    ensures PreInits(t + [OnDestroy(ops[i].service)]) == PreInits(t)
    ensures Inits(t + [OnDestroy(ops[i].service)]) == Inits(t)
  {
    hide InOrder, PreInits, Inits;
    var e := OnDestroy(ops[i].service);
    TraceMembers(t);
    PreInitStep(t, e);
    TraceStep(t, e);
    if InOrder(t) && Inits(t) == OpServices(ops) {
      assert OpServices(ops)[i] in Inits(t);
      InOrderStep(t, e);
    }
  }

  // ---------- Registrations alone ----------

  /** Exactly the registered services, each once. */
  ghost predicate EachOnce(s: seq<Service>, registered: map<Rtti, Service>) {
    Distinct(Ids(s)) && forall x :: x in s <==> x.id in registered && registered[x.id] == x
  }

  /** Where nothing is unregistered each service registered at the end took effect once. */
  lemma {:induction false} EffectedEachOnce(calls: seq<Call>)
    requires forall i | 0 <= i < |calls| :: calls[i].Register?
    ensures EachOnce(Effected([], calls), Registered(calls))
  {
    if calls != [] {
      hide Registered, Effected, EachOnce;
      var n := |calls| - 1;
      var past, s := calls[..n], calls[n].s;
      EffectedEachOnce(past);
      FrontAndLast(calls);
      LatestStep(past, calls[n]);
      EffectedByCall(past, calls[n]);
      var before := Effected([], past);
      if s.id !in Registered(past) {
        OneMoreOnce(before, Registered(past), s);
      }
    }
  }

  lemma OneMoreOnce(before: seq<Service>, registered: map<Rtti, Service>, s: Service)
    requires EachOnce(before, registered) && s.id !in registered
    ensures EachOnce(before + [s], registered[s.id := s])
  {
    hide Distinct;
    assert Ids(before + [s]) == Ids(before) + [s.id];
    forall k | k in Ids(before)
      ensures k in registered
    {
      var j :| 0 <= j < |before| && Ids(before)[j] == k;
      assert before[j] in before;
    }
    DistinctAppended(Ids(before), s.id);
  }
}
