/** Service classes, their base chains, and the graph of dependencies between services. */
module ServiceGraph {
  import opened Wrappers

  /** A class descriptor; `address` stands for the pointer that identifies it. Base chains are finite. */
  datatype Rtti = Rtti(address: nat, base: Option<Rtti>)

  /** `id` is the class `c` or has it somewhere in its base chain. */
  predicate DerivesFrom(id: Rtti, c: Rtti)
    decreases id
  {
    id == c || (id.base.Some? && DerivesFrom(id.base.value, c))
  }

  /** A chain of classes, each the base of the one before. */
  ghost predicate BaseChain(chain: seq<Rtti>) {
    chain != [] && forall i, j | 0 <= i && j == i + 1 < |chain| :: chain[i].base == Some(chain[j])
  }

  ghost predicate BaseChainFrom(id: Rtti, c: Rtti, chain: seq<Rtti>) {
    BaseChain(chain) && chain[0] == id && chain[|chain| - 1] == c
  }

  /** A class derives from exactly those that a chain of bases leads to. */
  lemma {:induction false} DerivesByBases(id: Rtti, c: Rtti)
    ensures DerivesFrom(id, c) <==> exists chain :: BaseChainFrom(id, c, chain)
  {
    if id == c {
      assert BaseChainFrom(id, c, [id]);
    } else {
      if id.base.Some? {
        DerivesByBases(id.base.value, c);
        if chain: seq<Rtti> :| BaseChainFrom(id.base.value, c, chain) {
          ChainBegins(id, c, chain);
        }
      }
      if chain: seq<Rtti> :| BaseChainFrom(id, c, chain) {
        ChainGoesOn(id, c, chain);
      }
    }
  }

  lemma ChainBegins(id: Rtti, c: Rtti, chain: seq<Rtti>)
    requires id.base.Some? && BaseChainFrom(id.base.value, c, chain)
    ensures BaseChainFrom(id, c, [id] + chain)
  {
    var longer := [id] + chain;
    forall i, j | 0 <= i && j == i + 1 < |longer|
      ensures longer[i].base == Some(longer[j])
    {
      if i > 0 {
        assert chain[i - 1].base == Some(chain[i]);
      }
    }
  }

  lemma ChainGoesOn(id: Rtti, c: Rtti, chain: seq<Rtti>)
    requires id != c && BaseChainFrom(id, c, chain)
    ensures id.base.Some? && BaseChainFrom(id.base.value, c, chain[1..])
  {
    assert chain[0].base == Some(chain[1]);
    var rest := chain[1..];
    forall i, j | 0 <= i && j == i + 1 < |rest|
      ensures rest[i].base == Some(rest[j])
    {
      assert chain[i + 1].base == Some(chain[j + 1]);
    }
  }

  /** For every registered service, the classes it depends on. */
  type Graph = map<Rtti, seq<Rtti>>

  /** Service `a` depends on some class that service `b` implements. */
  ghost predicate Edge(g: Graph, a: Rtti, b: Rtti) {
    a in g && b in g && exists d | d in g[a] :: DerivesFrom(b, d)
  }

  /** Every class depended upon is implemented by exactly one service. */
  ghost predicate UniquelyResolved(g: Graph) {
    forall a, d | a in g && d in g[a] :: Resolvable(g, d) && ImplementedOnce(g, d)
  }

  ghost predicate Resolvable(g: Graph, d: Rtti) {
    exists b | b in g :: DerivesFrom(b, d)
  }

  ghost predicate ImplementedOnce(g: Graph, d: Rtti) {
    forall b, c | b in g && c in g && DerivesFrom(b, d) && DerivesFrom(c, d) :: b == c
  }

  /** A rank that falls along every edge; one exists exactly when the graph has no cycle. */
  ghost predicate Ranked(g: Graph, rank: map<Rtti, nat>) {
    rank.Keys == g.Keys && forall a, b | Edge(g, a, b) :: rank[b] < rank[a]
  }

  ghost predicate Acyclic(g: Graph) {
    exists rank :: Ranked(g, rank)
  }

  ghost predicate WellFormed(g: Graph) {
    UniquelyResolved(g) && Acyclic(g)
  }

  // ---------- Dependency chains ----------

  /** A chain of services, each depending on the next. */
  ghost predicate DependencyChain(g: Graph, p: seq<Rtti>) {
    p != [] && p[0] in g && (|p| > 1 ==> Edge(g, p[0], p[1]) && DependencyChain(g, p[1..]))
  }

  /** `n` is the number of edges of a longest chain from `a`. */
  ghost predicate LongestChain(g: Graph, a: Rtti, n: int) {
    && (exists p :: DependencyChain(g, p) && p[0] == a && |p| == n + 1)
    && (forall p | DependencyChain(g, p) && p[0] == a :: |p| <= n + 1)
  }

  /** The one service that implements `d`. */
  ghost function Target(g: Graph, d: Rtti): (b: Rtti)
    requires Resolvable(g, d)
    ensures b in g && DerivesFrom(b, d)
  {
    var b :| b in g && DerivesFrom(b, d);
    b
  }

  /** The depth of a service: 0 without dependencies, else one more than the deepest of them. */
  ghost function Depth(g: Graph, rank: map<Rtti, nat>, a: Rtti): (n: nat)
    requires UniquelyResolved(g) && Ranked(g, rank) && a in g
    decreases rank[a], |g[a]| + 1
  {
    DepthOver(g, rank, a, g[a])
  }

  /** The same over some of a service's dependencies. */
  ghost function DepthOver(g: Graph, rank: map<Rtti, nat>, a: Rtti, ds: seq<Rtti>): (n: nat)
    requires UniquelyResolved(g) && Ranked(g, rank) && a in g
    requires forall d | d in ds :: d in g[a]
    decreases rank[a], |ds|
  {
    if ds == [] then 0
    else
      var d := ds[|ds| - 1];
      assert d in g[a] && Edge(g, a, Target(g, d));
      var m := 1 + Depth(g, rank, Target(g, d));
      var n := DepthOver(g, rank, a, ds[..|ds| - 1]);
      if n < m then m else n
  }

  lemma {:induction false} DepthOverBounds(g: Graph, rank: map<Rtti, nat>, a: Rtti, ds: seq<Rtti>)
    requires UniquelyResolved(g) && Ranked(g, rank) && a in g
    requires forall d | d in ds :: d in g[a]
    ensures forall d | d in ds :: Depth(g, rank, Target(g, d)) + 1 <= DepthOver(g, rank, a, ds)
    ensures ds != [] ==> exists d | d in ds :: DepthOver(g, rank, a, ds) == Depth(g, rank, Target(g, d)) + 1
    decreases |ds|
  {
    if ds != [] {
      var front := ds[..|ds| - 1];
      var last := ds[|ds| - 1];
      DepthOverBounds(g, rank, a, front);
      assert ds == front + [last];
      if DepthOver(g, rank, a, ds) == Depth(g, rank, Target(g, last)) + 1 {
        assert last in ds;
      } else {
        var d :| d in front && DepthOver(g, rank, a, front) == Depth(g, rank, Target(g, d)) + 1;
        assert d in ds;
      }
    }
  }

  /** Depth is the length of the longest chain. */
  lemma DepthIsLongest(g: Graph, rank: map<Rtti, nat>, a: Rtti)
    requires UniquelyResolved(g) && Ranked(g, rank) && a in g
    ensures LongestChain(g, a, Depth(g, rank, a))
  {
    var p := DeepestChain(g, rank, a);
    forall p | DependencyChain(g, p) && p[0] == a
      ensures |p| <= Depth(g, rank, a) + 1
    {
      ChainWithinDepth(g, rank, p);
    }
  }

  lemma {:induction false} DeepestChain(g: Graph, rank: map<Rtti, nat>, a: Rtti) returns (p: seq<Rtti>)
    requires UniquelyResolved(g) && Ranked(g, rank) && a in g
    ensures DependencyChain(g, p) && p[0] == a && |p| == Depth(g, rank, a) + 1
    decreases rank[a]
  {
    DepthOverBounds(g, rank, a, g[a]);
    if g[a] == [] {
      return [a];
    }
    var d :| d in g[a] && Depth(g, rank, a) == Depth(g, rank, Target(g, d)) + 1;
    var b := Target(g, d);
    assert Edge(g, a, b);
    var q := DeepestChain(g, rank, b);
    p := [a] + q;
    assert p[1..] == q;
  }

  lemma {:induction false} ChainWithinDepth(g: Graph, rank: map<Rtti, nat>, p: seq<Rtti>)
    requires UniquelyResolved(g) && Ranked(g, rank) && DependencyChain(g, p)
    ensures |p| <= Depth(g, rank, p[0]) + 1
  {
    if |p| > 1 {
      ChainWithinDepth(g, rank, p[1..]);
      var d :| d in g[p[0]] && DerivesFrom(p[1], d);
      TargetUnique(g, p[0], d, p[1]);
      DepthOverBounds(g, rank, p[0], g[p[0]]);
    }
  }

  lemma TargetUnique(g: Graph, a: Rtti, d: Rtti, b: Rtti)
    requires UniquelyResolved(g) && a in g && d in g[a] && b in g && DerivesFrom(b, d)
    ensures Target(g, d) == b
  {
    assert ImplementedOnce(g, d);
  }

  lemma LongestChainUnique(g: Graph, a: Rtti, n: int, m: int)
    requires LongestChain(g, a, n) && LongestChain(g, a, m)
    ensures n == m
  {
  }

  /** A service's longest chain is longer than that of any service it depends on. */
  lemma DependentIsDeeper(g: Graph, a: Rtti, b: Rtti, n: int, m: int)
    requires Edge(g, a, b) && LongestChain(g, a, n) && LongestChain(g, b, m)
    ensures m < n
  {
    var q :| DependencyChain(g, q) && q[0] == b && |q| == m + 1;
    assert ([a] + q)[1..] == q;
    assert DependencyChain(g, [a] + q);
  }
}
