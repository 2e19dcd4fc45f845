/** The dependency order: what the recursion memoises, and why the sorted list respects it. */
module ServiceOrder {
  import opened ServiceGraph
  import opened ServiceOps

  function GraphOf(services: ServiceMap): Graph {
    map k | k in services :: services[k].dep
  }

  ghost predicate AllResolvable(g: Graph, ds: seq<Rtti>) {
    forall d | d in ds :: Resolvable(g, d)
  }

  /** Only orders differ, and only services all of whose dependencies are registered have got a new one. */
  ghost predicate Progress(s: ServiceMap, s': ServiceMap) {
    && s.Keys == s'.Keys
    && forall k | k in s ::
         s'[k] == s[k].(order := s'[k].order) && (s'[k].order != s[k].order ==> AllResolvable(GraphOf(s), s[k].dep))
  }

  lemma ProgressKeepsGraph(s: ServiceMap, s': ServiceMap)
    requires Progress(s, s')
    ensures GraphOf(s') == GraphOf(s)
  {
  }

  lemma ProgressAdds(s: ServiceMap, s': ServiceMap, s'': ServiceMap)
    requires Progress(s, s') && Progress(s', s'')
    ensures Progress(s, s'')
  {
    ProgressKeepsGraph(s, s');
    hide AllResolvable, GraphOf;
  }

  /** Every memoised order is the depth of a service that has dependencies. */
  ghost predicate Memoised(s: ServiceMap, g: Graph, rank: map<Rtti, nat>)
    requires UniquelyResolved(g) && Ranked(g, rank) && s.Keys <= g.Keys
  {
    forall k | k in s && s[k].order != -1 :: s[k].dep != [] && s[k].order == Depth(g, rank, k)
  }

  /** No memoised order is forgotten. */
  ghost predicate Kept(s: ServiceMap, s': ServiceMap) {
    forall k | k in s && k in s' && s[k].order != -1 :: s'[k].order != -1
  }

  /** The classes on the path are implemented by services that lie no deeper than the one the path has led to. */
  ghost predicate OnPath(g: Graph, rank: map<Rtti, nat>, path: seq<Rtti>, id: Rtti) {
    && rank.Keys == g.Keys && id in g
    && forall p | p in path :: exists s | s in g :: DerivesFrom(s, p) && rank[id] <= rank[s]
  }

  ghost function DependedUpon(g: Graph): set<Rtti> {
    set k, d | k in g && d in g[k] :: d
  }

  ghost function Elements(path: seq<Rtti>): set<Rtti> {
    set p | p in path
  }

  lemma PathExtends(g: Graph, rank: map<Rtti, nat>, path: seq<Rtti>, id: Rtti, d: Rtti, t: Rtti)
    requires Ranked(g, rank) && OnPath(g, rank, path, id) && d in g[id] && t in g && DerivesFrom(t, d)
    ensures OnPath(g, rank, path + [d], t)
  {
    assert Edge(g, id, t);
    forall p | p in path + [d]
      ensures exists s | s in g :: DerivesFrom(s, p) && rank[t] <= rank[s]
    {
      if p in path {
        var s :| s in g && DerivesFrom(s, p) && rank[id] <= rank[s];
      }
    }
  }

  /** In a well-formed graph no dependency of a service is already on the path to it. */
  lemma NoCycleOnPath(g: Graph, rank: map<Rtti, nat>, path: seq<Rtti>, id: Rtti, d: Rtti)
    requires UniquelyResolved(g) && Ranked(g, rank) && OnPath(g, rank, path, id) && d in g[id]
    ensures d !in path
  {
    if d in path {
      var s :| s in g && DerivesFrom(s, d) && rank[id] <= rank[s];
      assert Edge(g, id, s);
    }
  }

  lemma GraphEntry(s: ServiceMap, k: Rtti)
    requires k in s
    ensures GraphOf(s).Keys == s.Keys && GraphOf(s)[k] == s[k].dep
  {
  }

  /** The greatest depth over the first `i` dependencies, plus one; -1 before the first. */
  ghost function MaxSoFar(g: Graph, rank: map<Rtti, nat>, id: Rtti, i: nat): int
    requires UniquelyResolved(g) && Ranked(g, rank) && id in g && i <= |g[id]|
  {
    if i == 0 then -1 else DepthOver(g, rank, id, g[id][..i])
  }

  lemma DepthWithout(g: Graph, rank: map<Rtti, nat>, id: Rtti)
    requires UniquelyResolved(g) && Ranked(g, rank) && id in g && g[id] == []
    ensures Depth(g, rank, id) == 0
  {
  }

  lemma MaxStep(g: Graph, rank: map<Rtti, nat>, id: Rtti, i: nat, t: Rtti)
    requires UniquelyResolved(g) && Ranked(g, rank) && id in g && i < |g[id]|
    requires t in g && DerivesFrom(t, g[id][i])
    ensures var m, n := 1 + Depth(g, rank, t), MaxSoFar(g, rank, id, i);
            MaxSoFar(g, rank, id, i + 1) == if n < m then m else n
  {
    hide Depth;
    var ds := g[id][..i + 1];
    assert ds[..|ds| - 1] == g[id][..i] && ds[|ds| - 1] == g[id][i];
    TargetUnique(g, id, g[id][i], t);
  }

  lemma DependenciesResolve(g: Graph, id: Rtti, d: Rtti)
    requires UniquelyResolved(g) && id in g && d in g[id]
    ensures Resolvable(g, d)
  {
  }

  lemma NothingResolved(g: Graph)
    ensures AllResolvable(g, [])
  {
  }

  lemma OneMoreResolved(g: Graph, ds: seq<Rtti>, i: nat, t: Rtti)
    requires i < |ds| && AllResolvable(g, ds[..i]) && t in g && DerivesFrom(t, ds[i])
    ensures AllResolvable(g, ds[..i + 1])
  {
    assert Resolvable(g, ds[i]);
    assert ds[..i + 1] == ds[..i] + [ds[i]];
  }

  /** Each step down the graph uses up one of the finitely many classes depended upon. */
  lemma PathShrinksRest(s: ServiceMap, path: seq<Rtti>, id: Rtti, d: Rtti)
    requires id in s && d in s[id].dep && d !in path
    ensures DependedUpon(GraphOf(s)) - Elements(path + [d]) < DependedUpon(GraphOf(s)) - Elements(path)
  {
    var all := DependedUpon(GraphOf(s));
    assert d in GraphOf(s)[id];
    assert d in all - Elements(path) && d !in all - Elements(path + [d]);
  }

  lemma OrderSet(s0: ServiceMap, s: ServiceMap, id: Rtti, n: int)
    requires Progress(s0, s) && id in s && AllResolvable(GraphOf(s0), s[id].dep)
    ensures Progress(s0, s[id := s[id].(order := n)])
    ensures GraphOf(s[id := s[id].(order := n)]) == GraphOf(s)
  {
    hide AllResolvable;
  }

  lemma OrderSetSound(g: Graph, rank: map<Rtti, nat>, s: ServiceMap, id: Rtti, n: int)
    requires UniquelyResolved(g) && Ranked(g, rank) && g == GraphOf(s) && Memoised(s, g, rank)
    requires id in s && s[id].dep != [] && n == MaxSoFar(g, rank, id, |g[id]|)
    ensures Memoised(s[id := s[id].(order := n)], g, rank)
    ensures n == Depth(g, rank, id) > 0
  {
    assert g[id][..|g[id]|] == g[id];
    DepthOverBounds(g, rank, id, g[id]);
    hide DepthOver;
  }

  // ---------- The dependency order ----------

  /** Every service with dependencies has the length of its longest dependency chain for its order, the others -1. */
  ghost predicate Measured(services: ServiceMap) {
    forall k | k in services ::
      if services[k].dep == [] then services[k].order == -1
      else LongestChain(GraphOf(services), k, services[k].order)
  }

  /** No service has an order yet. */
  ghost predicate Unordered(services: ServiceMap) {
    forall k | k in services :: services[k].order == -1
  }

  ghost predicate Finished(services: ServiceMap, keys: seq<Rtti>) {
    forall k | k in keys && k in services && services[k].dep != [] :: services[k].order != -1
  }

  lemma RootOnPath(g: Graph, rank: map<Rtti, nat>, id: Rtti)
    requires Ranked(g, rank) && id in g
    ensures OnPath(g, rank, [id], id)
  {
    assert DerivesFrom(id, id);
  }

  lemma MemoisedIsMeasured(services: ServiceMap, keys: seq<Rtti>, rank: map<Rtti, nat>)
    requires var g := GraphOf(services); UniquelyResolved(g) && Ranked(g, rank) && Memoised(services, g, rank)
    requires Iterates(keys, services) && Finished(services, keys)
    ensures Measured(services)
  {
    var g := GraphOf(services);
    forall k | k in services && services[k].dep != []
      ensures LongestChain(g, k, services[k].order)
    {
      assert k in keys;
      hide Depth, LongestChain;
      DepthIsLongest(g, rank, k);
    }
  }

  lemma MeasuredEdge(services: ServiceMap, a: Rtti, b: Rtti)
    requires Measured(services) && Edge(GraphOf(services), a, b)
    ensures a in services && b in services && services[b].order < services[a].order
  {
    var g := GraphOf(services);
    GraphEntry(services, a);
    assert LongestChain(g, a, services[a].order);
    if services[b].dep != [] {
      DependentIsDeeper(g, a, b, services[a].order, services[b].order);
    }
  }

  lemma ListedBefore(services: ServiceMap, ops: seq<ServiceOpInfo>, i: nat, j: nat)
    requires Lists(ops, services) && Ordered(ops) && i < |ops| && j < |ops|
    requires services[ops[j].id].order < services[ops[i].id].order
    ensures j < i
  {
    hide Iterates;
    assert ops[i] in ops && ops[j] in ops;
    assert ops[j].order < ops[i].order;
  }

  /** The list sorted by order has every service after the ones it depends on. */
  lemma OrderedIsDependenciesFirst(services: ServiceMap, ops: seq<ServiceOpInfo>)
    requires Measured(services) && Lists(ops, services) && Ordered(ops)
    ensures DependenciesFirst(GraphOf(services), OpIds(ops))
  {
    hide Measured, Edge, Lists, Ordered, GraphOf;
    var g, ids := GraphOf(services), OpIds(ops);
    forall i, j | 0 <= i < |ids| && 0 <= j < |ids| && Edge(g, ids[i], ids[j])
      ensures j < i
    {
      MeasuredEdge(services, ids[i], ids[j]);
      ListedBefore(services, ops, i, j);
    }
  }

  lemma GraphKeys(services: ServiceMap)
    ensures GraphOf(services).Keys == services.Keys
  {
  }

  ghost function SomeRank(g: Graph): (rank: map<Rtti, nat>)
    ensures Acyclic(g) ==> Ranked(g, rank)
  {
    if Acyclic(g) then var rank :| Ranked(g, rank); rank else map[]
  }

  lemma NothingMemoised(s: ServiceMap, g: Graph, rank: map<Rtti, nat>)
    requires Unordered(s) && g == GraphOf(s) && UniquelyResolved(g) && Ranked(g, rank)
    ensures Memoised(s, g, rank)
  {
  }

  lemma OneMoreFinished(s: ServiceMap, s': ServiceMap, keys: seq<Rtti>, i: nat)
    requires i < |keys| && Progress(s, s') && Kept(s, s') && Finished(s, keys[..i])
    requires keys[i] in s && (s[keys[i]].dep != [] ==> s'[keys[i]].order != -1)
    ensures Finished(s', keys[..i + 1])
  {
    hide AllResolvable, GraphOf;
  }
}
