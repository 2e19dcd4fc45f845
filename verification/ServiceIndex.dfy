/** The lookup index over class hierarchies, and the registry, as functions of the calls made. */
module ServiceIndex {
  import opened Wrappers
  import opened ServiceGraph
  import opened ServiceOps

  datatype Call = Register(s: Service) | UnRegister(s: Service)

  // ---------- The lookup index ----------

  function Height(r: Rtti): nat {
    if r.base.None? then 0 else Height(r.base.value) + 1
  }

  lemma {:induction false} BasesAreLower(r: Rtti, c: Rtti)
    requires DerivesFrom(r, c)
    ensures c == r || Height(c) < Height(r)
    decreases r
  {
    if c != r {
      BasesAreLower(r.base.value, c);
    }
  }

  /** No class is in the base chain of its own base. */
  lemma NotOwnBase(r: Rtti)
    ensures r.base.Some? ==> !DerivesFrom(r.base.value, r)
  {
    if r.base.Some? && DerivesFrom(r.base.value, r) {
      BasesAreLower(r.base.value, r);
    }
  }

  function RegisteredAfter(before: map<Rtti, Service>, call: Call): map<Rtti, Service> {
    if call.UnRegister? then before - {call.s.id}
    else if call.s.id in before then before
    else before[call.s.id := call.s]
  }

  /** The services registered after a history of calls, by class. */
  function Registered(calls: seq<Call>): map<Rtti, Service> {
    if calls == [] then map[] else RegisteredAfter(Registered(calls[..|calls| - 1]), calls[|calls| - 1])
  }

  /** The services that the later calls register, in order. */
  function Effected(first: seq<Call>, later: seq<Call>): seq<Service> {
    if later == [] then []
    else
      var past, call := later[..|later| - 1], later[|later| - 1];
      Effected(first, past) + if call.Register? && call.s.id !in Registered(first + past) then [call.s] else []
  }

  function LatestAfter(before: map<Rtti, Service>, found: Option<Service>, call: Call, c: Rtti): Option<Service> {
    if !DerivesFrom(call.s.id, c) then found
    else if call.UnRegister? then None
    else if call.s.id in before then found
    else Some(call.s)
  }

  /** What the index holds for class `c`: the service of the last effective registration that has `c` in its base
      chain, unless an unregistration of such a class came later. */
  function Latest(calls: seq<Call>, c: Rtti): Option<Service> {
    if calls == [] then None
    else
      var past := calls[..|calls| - 1];
      LatestAfter(Registered(past), Latest(past, c), calls[|calls| - 1], c)
  }

  lemma LatestStep(calls: seq<Call>, call: Call)
    ensures Registered(calls + [call]) == RegisteredAfter(Registered(calls), call)
    ensures forall c :: Latest(calls + [call], c) == LatestAfter(Registered(calls), Latest(calls, c), call, c)
  {
    assert (calls + [call])[..|calls|] == calls;
  }

  lemma {:induction false} RegisteredById(calls: seq<Call>)
    ensures forall k | k in Registered(calls) :: Registered(calls)[k].id == k
  {
    if calls != [] {
      RegisteredById(calls[..|calls| - 1]);
    }
  }

  /** Whatever the history, the index never leads to an unregistered service or to one of another class. */
  lemma {:induction false} LatestIsRegistered(calls: seq<Call>, c: Rtti)
    requires Latest(calls, c).Some?
    ensures var s := Latest(calls, c).value;
            DerivesFrom(s.id, c) && s.id in Registered(calls) && Registered(calls)[s.id] == s
  {
    var past := calls[..|calls| - 1];
    var call := calls[|calls| - 1];
    if Latest(past, c).Some? {
      LatestIsRegistered(past, c);
    }
  }

  /** Call `i` is the first for its class. */
  ghost predicate Effective(calls: seq<Call>, i: int) {
    0 <= i < |calls| && forall j | 0 <= j < i :: calls[j].s.id != calls[i].s.id
  }

  ghost predicate RegistrationsOnly(calls: seq<Call>) {
    forall i | 0 <= i < |calls| :: calls[i].Register?
  }

  ghost predicate OfKind(calls: seq<Call>, c: Rtti, i: int) {
    Effective(calls, i) && DerivesFrom(calls[i].s.id, c)
  }

  /** Call `i` is the last effective registration of a service that is a `c`. */
  ghost predicate LastOfKind(calls: seq<Call>, c: Rtti, i: int) {
    OfKind(calls, c, i) && forall j | i < j < |calls| :: !OfKind(calls, c, j)
  }

  lemma {:induction false} RegisteredOnce(calls: seq<Call>, k: Rtti)
    requires RegistrationsOnly(calls)
    ensures k in Registered(calls) <==> exists i :: 0 <= i < |calls| && calls[i].s.id == k
  {
    if calls != [] {
      var past := calls[..|calls| - 1];
      RegisteredOnce(past, k);
      assert calls == past + [calls[|calls| - 1]];
      if i :| 0 <= i < |past| && past[i].s.id == k {
        assert calls[i].s.id == k;
      }
    }
  }

  lemma EffectiveEarlier(calls: seq<Call>, n: nat, i: int)
    requires n < |calls| && i < n
    ensures Effective(calls, i) == Effective(calls[..n], i)
  {
    assert forall j | 0 <= j < n :: calls[j] == calls[..n][j];
  }

  lemma {:induction false} LatestIsLastOfKind(calls: seq<Call>, c: Rtti, i: int)
    requires RegistrationsOnly(calls) && LastOfKind(calls, c, i)
    ensures Latest(calls, c) == Some(calls[i].s)
  {
    var n := |calls| - 1;
    var past := calls[..n];
    RegisteredOnce(past, calls[n].s.id);
    if i < n {
      forall j | 0 <= j < n
        ensures OfKind(calls, c, j) == OfKind(past, c, j)
      {
        EffectiveEarlier(calls, n, j);
      }
      LatestIsLastOfKind(past, c, i);
      assert !OfKind(calls, c, n);
    }
  }

  lemma {:induction false} NothingOfKind(calls: seq<Call>, c: Rtti)
    requires forall i | 0 <= i < |calls| :: !DerivesFrom(calls[i].s.id, c)
    ensures Latest(calls, c).None?
  {
    if calls != [] {
      NothingOfKind(calls[..|calls| - 1], c);
    }
  }

  lemma {:induction false} FirstOfClass(calls: seq<Call>, i: nat) returns (f: nat)
    requires i < |calls|
    ensures Effective(calls, f) && calls[f].s.id == calls[i].s.id
  {
    f := i;
    if j :| 0 <= j < i && calls[j].s.id == calls[i].s.id {
      f := FirstOfClass(calls, j);
    }
  }

  lemma {:induction false} LastFrom(calls: seq<Call>, c: Rtti, i: int) returns (l: int)
    requires OfKind(calls, c, i)
    ensures LastOfKind(calls, c, l)
    decreases |calls| - i
  {
    l := i;
    if j :| i < j < |calls| && OfKind(calls, c, j) {
      l := LastFrom(calls, c, j);
    }
  }

  /** Under registrations alone a lookup finds the service most recently registered with the class in its base chain,
      and finds nothing only where no such service was ever registered. */
  lemma LookupFindsMostRecent(calls: seq<Call>, c: Rtti)
    requires RegistrationsOnly(calls)
    ensures Latest(calls, c).None? <==> forall i | 0 <= i < |calls| :: !DerivesFrom(calls[i].s.id, c)
    ensures Latest(calls, c).Some? ==> exists i :: LastOfKind(calls, c, i) && calls[i].s == Latest(calls, c).value
  {
    if i :| 0 <= i < |calls| && DerivesFrom(calls[i].s.id, c) {
      var f := FirstOfClass(calls, i);
      var l := LastFrom(calls, c, f);
      LatestIsLastOfKind(calls, c, l);
    } else {
      NothingOfKind(calls, c);
    }
  }

  // ---------- Any mix of calls ----------

  /** Call `i` registers a service while none of its class is registered. */
  ghost predicate TakesEffect(calls: seq<Call>, i: int) {
    0 <= i < |calls| && calls[i].Register? && calls[i].s.id !in Registered(calls[..i])
  }

  /** Call `i` is about a class that derives from `c`: it registers such a service or unregisters it. */
  ghost predicate Concerns(calls: seq<Call>, c: Rtti, i: int) {
    0 <= i < |calls| && DerivesFrom(calls[i].s.id, c) && (calls[i].UnRegister? || TakesEffect(calls, i))
  }

  ghost predicate LastConcern(calls: seq<Call>, c: Rtti, i: int) {
    Concerns(calls, c, i) && forall j | i < j < |calls| :: !Concerns(calls, c, j)
  }

  /** A lookup finds a service exactly if the last call that concerns the class is its registration. */
  lemma LookupExactly(calls: seq<Call>, c: Rtti, x: Service)
    ensures Latest(calls, c) == Some(x) <==> exists i :: LastConcern(calls, c, i) && calls[i] == Register(x)
  {
    var l := LastOf(calls, c);
    assert forall i :: LastConcern(calls, c, i) ==> i == l;
  }

  lemma {:induction false} LastOf(calls: seq<Call>, c: Rtti) returns (l: int)
    ensures if l == -1 then Latest(calls, c).None? && forall i :: !Concerns(calls, c, i)
            else LastConcern(calls, c, l)
                 && Latest(calls, c) == if calls[l].Register? then Some(calls[l].s) else None
  {
    var n := |calls| - 1;
    if calls == [] {
      l := -1;
    } else {
      forall i
        ensures Concerns(calls[..n], c, i) <==> i != n && Concerns(calls, c, i)
      {
        if 0 <= i < n {
          assert calls[..n][..i] == calls[..i];
        }
      }
      l := LastOf(calls[..n], c);
      if Concerns(calls, c, n) {
        l := n;
      }
    }
  }

  /** What is registered is what the last effective call about its class registered. */
  lemma {:induction false} RegisteredExactly(calls: seq<Call>, x: Service)
    ensures (x.id in Registered(calls) && Registered(calls)[x.id] == x) <==>
            exists i :: TakesEffect(calls, i) && calls[i].s == x
                        && forall j | i < j < |calls| :: !(calls[j].UnRegister? && calls[j].s.id == x.id)
  {
    RegisteredById(calls);
    if calls != [] {
      var n := |calls| - 1;
      var past := calls[..n];
      RegisteredExactly(past, x);
      forall i
        ensures TakesEffect(past, i) <==> i != n && TakesEffect(calls, i)
      {
        if 0 <= i < n {
          assert past[..i] == calls[..i];
        }
      }
    }
  }

  /** The index answers for every class what the history of calls says. */
  ghost predicate Indexes(fastSearch: map<Rtti, Service>, calls: seq<Call>) {
    forall c :: Latest(calls, c) == if c in fastSearch then Some(fastSearch[c]) else None
  }

  /** The registry holds the services that the history of calls says. */
  ghost predicate Holds(services: ServiceMap, calls: seq<Call>) {
    && services.Keys == Registered(calls).Keys
    && forall k | k in services :: services[k].service == Registered(calls)[k]
                                   && services[k].dep == services[k].service.dep
  }

  lemma IndexKept(fastSearch: map<Rtti, Service>, calls: seq<Call>, s: Service)
    requires Indexes(fastSearch, calls) && s.id in Registered(calls)
    ensures Indexes(fastSearch, calls + [Register(s)])
  {
    LatestStep(calls, Register(s));
  }

  lemma IndexEntered(fastSearch: map<Rtti, Service>, fastSearch': map<Rtti, Service>, calls: seq<Call>, s: Service)
    requires Indexes(fastSearch, calls) && s.id !in Registered(calls)
    requires forall c :: c in fastSearch' <==> c in fastSearch || DerivesFrom(s.id, c)
    requires forall c | c in fastSearch' :: fastSearch'[c] == if DerivesFrom(s.id, c) then s else fastSearch[c]
    ensures Indexes(fastSearch', calls + [Register(s)])
  {
    LatestStep(calls, Register(s));
  }

  lemma IndexErased(fastSearch: map<Rtti, Service>, fastSearch': map<Rtti, Service>, calls: seq<Call>, s: Service)
    requires Indexes(fastSearch, calls)
    requires forall c :: c in fastSearch' <==> c in fastSearch && !DerivesFrom(s.id, c)
    requires forall c | c in fastSearch' :: fastSearch'[c] == fastSearch[c]
    ensures Indexes(fastSearch', calls + [UnRegister(s)])
  {
    LatestStep(calls, UnRegister(s));
  }

  lemma HoldsKeys(services: ServiceMap, calls: seq<Call>)
    requires Holds(services, calls)
    ensures services.Keys == Registered(calls).Keys
  {
  }

  lemma RegistrationHolds(services: ServiceMap, calls: seq<Call>, s: Service, info: ServiceInfo)
    requires Holds(services, calls) && s.id !in services && info.service == s && info.dep == s.dep
    ensures Holds(services[s.id := info], calls + [Register(s)])
  {
    LatestStep(calls, Register(s));
  }

  lemma UnRegistrationHolds(services: ServiceMap, calls: seq<Call>, s: Service)
    requires Holds(services, calls)
    ensures Holds(services - {s.id}, calls + [UnRegister(s)])
  {
    LatestStep(calls, UnRegister(s));
  }

  lemma RepeatedRegistrationHolds(services: ServiceMap, calls: seq<Call>, s: Service)
    requires Holds(services, calls) && s.id in services
    ensures Holds(services, calls + [Register(s)])
  {
    LatestStep(calls, Register(s));
  }
}
