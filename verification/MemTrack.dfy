/** The tracking allocator of XLN/Core/DebugHelper/Memory/MemTrackAllocator.cpp.

    Every tracked block has a record. Records of live blocks hang in doubly linked chains off a hash table;
    records of freed blocks wait on a singly linked list to be used again. Addresses are numbers; the wrapped
    allocator's answer and the availability of memory for a new record are parameters of the operations. */
module MemTrack {
  import opened Machine
  import opened Sequences

  const BUCKETS: nat := 4096

  /** The cast to a 32-bit integer that the record's size field goes through. */
  function ToInt32(n: nat): (r: int)
    ensures -0x8000_0000 <= r < 0x8000_0000
    ensures r == n <==> n < 0x8000_0000
    ensures (n - r) % 0x1_0000_0000 == 0
  {
    var low := n % 0x1_0000_0000;
    if low < 0x8000_0000 then low else low - 0x1_0000_0000
  }

  /** An address reinterpreted as a signed word. */
  function ToIntNative(addr: nat): int {
    if addr < UINT64_LIMIT / 2 then addr else addr - UINT64_LIMIT
  }

  function GetHash(addr: nat): (h: nat)
    ensures h < BUCKETS
  {
    (ToIntNative(addr) / 16) % BUCKETS
  }

  /** The bucket is numbered by bits 4 to 15 of the address, whatever the sign of the signed word: so successive
      16-byte units fall into successive buckets. */
  lemma HashIsMiddleBits(addr: nat)
    requires addr < UINT64_LIMIT
    ensures GetHash(addr) == addr % 0x1_0000 / 16
    ensures addr + 16 < UINT64_LIMIT ==> GetHash(addr + 16) == (GetHash(addr) + 1) % BUCKETS
  {
    MiddleBits(addr);
    if addr + 16 < UINT64_LIMIT {
      MiddleBits(addr + 16);
      var low := addr % 0x1_0000;
      if low + 16 < 0x1_0000 {
        MultipleGone(low + 16, addr / 0x1_0000);
      } else {
        MultipleGone(low + 16 - 0x1_0000, addr / 0x1_0000 + 1);
      }
    }
  }

  lemma MiddleBits(addr: nat)
    requires addr < UINT64_LIMIT
    ensures GetHash(addr) == addr % 0x1_0000 / 16
  {
    var high, low := addr / 0x1_0000, addr % 0x1_0000;
    assert addr == high * 0x1_0000 + low;
    assert ToIntNative(addr) / 16 == (if addr < UINT64_LIMIT / 2 then high else high - 0x1_0000_0000_0000) * BUCKETS
                                     + low / 16;
  }

  lemma MultipleGone(x: nat, q: nat)
    requires x < 0x1_0000
    ensures (q * 0x1_0000 + x) % 0x1_0000 == x
  {
  }

  /** What is known of a tracked block. */
  datatype Block = Block(size: nat, file: string, func: string, line: int)

  /** The descriptive fields of a record; the size has been cut to 32 bits. */
  datatype Details = Details(srcFile: string, srcFunc: string, srcLine: int, allocSize: int)

  function Recorded(b: Block): Details {
    Details(b.file, b.func, b.line, ToInt32(b.size))
  }

  /** The record tells the place of the allocation, and its size if that is below 2 GiB. */
  predicate Describes(d: Details, b: Block) {
    && d.srcFile == b.file && d.srcFunc == b.func && d.srcLine == b.line
    && (d.allocSize == b.size <==> b.size < 0x8000_0000) && (b.size - d.allocSize) % 0x1_0000_0000 == 0
  }

  lemma RecordedDescribes()
    ensures forall b :: Describes(Recorded(b), b)
  {
  }

  class AllocateInfo {
    var addr: nat
    var details: Details
    var next: AllocateInfo?
    var prev: AllocateInfo?

    constructor () {
      addr, details, next, prev := 0, Details("", "", 0, 0), null, null;
    }
  }

  // ---------- Which address hangs in which bucket ----------

  ghost function Without(c: seq<nat>, k: nat): seq<nat>
    requires k < |c|
  {
    c[..k] + c[k + 1..]
  }

  lemma WithoutKeepsOthers(c: seq<nat>, k: nat)
    requires k < |c| && Distinct(c)
    ensures Distinct(Without(c, k))
    ensures forall x :: x in Without(c, k) <==> x in c && x != c[k]
  {
    var d := Without(c, k);
    forall x
      ensures x in d <==> x in c && x != c[k]
    {
      if x in d {
        var j :| 0 <= j < |d| && d[j] == x;
        assert x == if j < k then c[j] else c[j + 1];
      }
      if x in c && x != c[k] {
        var j :| 0 <= j < |c| && c[j] == x;
        assert x == if j < k then d[j] else d[j - 1];
      }
    }
  }

  /** Bucket `i` holds the live addresses that hash to it, each once. */
  ghost predicate Holds(c: seq<nat>, i: nat, live: set<nat>) {
    && Distinct(c)
    && (forall a :: a in c <==> a in live && GetHash(a) == i)
  }

  ghost predicate Placed(chains: seq<seq<nat>>, live: set<nat>) {
    && |chains| == BUCKETS
    && (forall i | 0 <= i < BUCKETS :: Holds(chains[i], i, live))
  }

  lemma PlacedAfterInsert(chains: seq<seq<nat>>, live: set<nat>, a: nat)
    requires Placed(chains, live) && a !in live
    ensures Placed(chains[GetHash(a) := [a] + chains[GetHash(a)]], live + {a})
  {
    hide GetHash;
    var h := GetHash(a);
    assert Holds(chains[h], h, live);
    assert Holds([a] + chains[h], h, live + {a});
    forall i | 0 <= i < BUCKETS && i != h
      ensures Holds(chains[i], i, live + {a})
    {
      assert Holds(chains[i], i, live);
    }
  }

  lemma PlacedAfterRemove(chains: seq<seq<nat>>, live: set<nat>, h: nat, k: nat)
    requires Placed(chains, live) && h < BUCKETS && k < |chains[h]|
    ensures Placed(chains[h := Without(chains[h], k)], live - {chains[h][k]})
  {
    hide GetHash;
    var a := chains[h][k];
    assert Holds(chains[h], h, live);
    WithoutKeepsOthers(chains[h], k);
    assert Holds(Without(chains[h], k), h, live - {a});
    forall i | 0 <= i < BUCKETS && i != h
      ensures Holds(chains[i], i, live - {a})
    {
      assert Holds(chains[i], i, live);
    }
  }

  /** The addresses of all buckets, one bucket after the other. */
  ghost function Flat(chains: seq<seq<nat>>): seq<nat> {
    if chains == [] then [] else Flat(chains[..|chains| - 1]) + chains[|chains| - 1]
  }

  /** Going through the first `n` buckets meets the live addresses that hash below `n`, each once. */
  lemma {:induction false} FlatListsOnce(chains: seq<seq<nat>>, live: set<nat>, n: nat)
    requires Placed(chains, live) && n <= BUCKETS
    ensures Distinct(Flat(chains[..n]))
    ensures forall a :: a in Flat(chains[..n]) <==> a in live && GetHash(a) < n
  {
    hide GetHash;
    if n > 0 {
      FlatListsOnce(chains, live, n - 1);
      assert chains[..n][..n - 1] == chains[..n - 1];
      assert Holds(chains[n - 1], n - 1, live);
      var front, last := Flat(chains[..n - 1]), chains[n - 1];
      assert Flat(chains[..n]) == front + last;
      assert forall j, k | 0 <= j < |front| && 0 <= k < |last| :: front[j] in front && last[k] in last;
    }
  }

  // ---------- The linked records ----------

  /** The records of a chain of addresses, in order. */
  ghost function Chain(c: seq<nat>, index: map<nat, AllocateInfo>): seq<AllocateInfo>
    requires forall a | a in c :: a in index
  {
    seq(|c|, j requires 0 <= j < |c| => index[c[j]])
  }

  lemma ChainWithout(c: seq<nat>, index: map<nat, AllocateInfo>, k: nat)
    requires k < |c| && Distinct(c) && forall a | a in c :: a in index
    ensures forall a | a in Without(c, k) :: a in index && a != c[k]
    ensures Chain(Without(c, k), index - {c[k]}) == Chain(c, index)[..k] + Chain(c, index)[k + 1..]
  {
    WithoutKeepsOthers(c, k);
  }

  /** The record at place `j` of a chain; there is none past its end. */
  ghost function At(chain: seq<AllocateInfo>, j: nat): AllocateInfo? {
    if j < |chain| then chain[j] else null
  }

  lemma CutAt(chain: seq<AllocateInfo>, k: nat, j: nat)
    requires 0 < k < |chain| && j < |chain| - 1
    ensures var cut := chain[..k] + chain[k + 1..];
            && cut[j] == (if j < k then chain[j] else chain[j + 1])
            && (j > 0 ==> cut[j - 1] == if j - 1 < k then chain[j - 1] else chain[j])
            && At(cut, j + 1) == (if j + 1 < k then chain[j + 1] else At(chain, j + 2))
  {
  }

  /** The links spell out `chain`, starting at `head`. Nothing is said of the head's own `prev`: removing a
      head leaves the next one pointing back at the removed record. */
  ghost predicate Linked(head: AllocateInfo?, chain: seq<AllocateInfo>)
    reads chain
  {
    && head == At(chain, 0)
    && (forall j | 0 <= j < |chain| :: chain[j].next == At(chain, j + 1))
    && (forall j | 0 < j < |chain| :: chain[j].prev == chain[j - 1])
  }

  // ---------- The table ----------

  /** What the table holds: per bucket the addresses in chain order, and for every address its record and the
      block it stands for. */
  datatype Model = Model(chains: seq<seq<nat>>, index: map<nat, AllocateInfo>, live: map<nat, Block>,
                         records: set<AllocateInfo>)

  ghost predicate Indexed(m: Model)
    reads m.records
  {
    && (forall r | r in m.records :: r.addr in m.index && m.index[r.addr] == r)
    && (forall a | a in m.index :: m.index[a] in m.records && m.index[a].addr == a)
  }

  ghost predicate Described(m: Model)
    reads m.records
  {
    && m.live.Keys == m.index.Keys
    && (forall a | a in m.index :: m.index[a] in m.records && m.index[a].details == Recorded(m.live[a]))
  }

  ghost predicate BucketValid(m: Model, i: nat, head: AllocateInfo?)
    requires i < |m.chains|
    reads m.records
  {
    && (forall a | a in m.chains[i] :: a in m.index && m.index[a] in m.records)
    && Linked(head, Chain(m.chains[i], m.index))
  }

  ghost predicate BucketsValid(m: Model, heads: seq<AllocateInfo?>, besides: int)
    requires |heads| == |m.chains|
    reads m.records
  {
    forall i | 0 <= i < |heads| && i != besides :: BucketValid(m, i, heads[i])
  }

  ghost predicate TableValid(m: Model, heads: seq<AllocateInfo?>)
    reads m.records
  {
    && |heads| == BUCKETS && Placed(m.chains, m.index.Keys)
    && Indexed(m) && Described(m) && BucketsValid(m, heads, -1)
  }

  ghost function Added(m: Model, info: AllocateInfo, addr: nat, block: Block): Model
    requires |m.chains| == BUCKETS
  {
    Model(m.chains[GetHash(addr) := [addr] + m.chains[GetHash(addr)]], m.index[addr := info],
          m.live[addr := block], m.records + {info})
  }

  ghost function Dropped(m: Model, h: nat, k: nat): Model
    requires h < |m.chains| && k < |m.chains[h]| && m.chains[h][k] in m.index
  {
    var a := m.chains[h][k];
    Model(m.chains[h := Without(m.chains[h], k)], m.index - {a}, m.live - {a}, m.records - {m.index[a]})
  }

  /** The links already lead to the new record; it remains to say so. */
  lemma AddedValid(m: Model, heads: seq<AllocateInfo?>, info: AllocateInfo, block: Block)
    requires |heads| == BUCKETS && Placed(m.chains, m.index.Keys) && Indexed(m) && Described(m)
    requires BucketsValid(m, heads, GetHash(info.addr))
    requires info.addr !in m.index && info.details == Recorded(block)
    requires forall a | a in m.chains[GetHash(info.addr)] :: a in m.index && m.index[a] in m.records
    requires Linked(heads[GetHash(info.addr)], [info] + Chain(m.chains[GetHash(info.addr)], m.index))
    ensures TableValid(Added(m, info, info.addr, block), heads)
  {
    hide GetHash, Linked;
    var h := GetHash(info.addr);
    var m' := Added(m, info, info.addr, block);
    PlacedAfterInsert(m.chains, m.index.Keys, info.addr);
    forall i | 0 <= i < BUCKETS
      ensures BucketValid(m', i, heads[i])
    {
      assert Holds(m.chains[i], i, m.index.Keys);
      if i == h {
        assert Chain(m'.chains[h], m'.index) == [info] + Chain(m.chains[h], m.index);
      } else {
        assert BucketValid(m, i, heads[i]);
        assert Chain(m'.chains[i], m'.index) == Chain(m.chains[i], m.index);
      }
    }
  }

  /** The links already pass record `k` of bucket `h` by; it remains to say so. */
  lemma DroppedValid(m: Model, heads: seq<AllocateInfo?>, h: nat, k: nat)
    requires |heads| == BUCKETS && Placed(m.chains, m.index.Keys) && Indexed(m) && Described(m)
    requires h < BUCKETS && BucketsValid(m, heads, h)
    requires k < |m.chains[h]| && forall a | a in m.chains[h] :: a in m.index && m.index[a] in m.records
    requires var chain := Chain(m.chains[h], m.index); Linked(heads[h], chain[..k] + chain[k + 1..])
    ensures TableValid(Dropped(m, h, k), heads)
  {
    hide GetHash, Linked;
    var m' := Dropped(m, h, k);
    PlacedAfterRemove(m.chains, m.index.Keys, h, k);
    forall i | 0 <= i < BUCKETS
      ensures BucketValid(m', i, heads[i])
    {
      assert Holds(m.chains[i], i, m.index.Keys) && Holds(m'.chains[i], i, m'.index.Keys);
      if i == h {
        ChainWithout(m.chains[h], m.index, k);
      } else {
        assert BucketValid(m, i, heads[i]);
        assert Chain(m'.chains[i], m'.index) == Chain(m.chains[i], m.index);
      }
    }
  }

  class AllocHashTable {
    const buckets: array<AllocateInfo?>
    ghost var model: Model

    ghost predicate Valid()
      reads this, buckets, model.records
    {
      TableValid(model, buckets[..])
    }

    constructor ()
      ensures Valid() && model == Model(seq(BUCKETS, i => []), map[], map[], {}) && fresh(buckets)
    {
      buckets := new AllocateInfo?[BUCKETS](i => null);
      model := Model(seq(BUCKETS, i => []), map[], map[], {});
    }

    /** The records of bucket `h`. They are distinct, because their addresses are. */
    ghost predicate Listed(h: nat, chain: seq<AllocateInfo>)
      reads this, model.records
    {
      && (forall j | 0 <= j < |chain| :: chain[j] in model.records && GetHash(chain[j].addr) == h)
      && (forall i, j | 0 <= i < j < |chain| :: chain[i] != chain[j])
    }

    lemma ChainListed(h: nat)
      requires Valid() && h < BUCKETS
      ensures forall a | a in model.chains[h] :: a in model.index && model.index[a] in model.records
      ensures var chain := Chain(model.chains[h], model.index);
              && Listed(h, chain) && Linked(buckets[h], chain)
              && forall j | 0 <= j < |chain| :: chain[j].addr == model.chains[h][j]
      ensures Holds(model.chains[h], h, model.index.Keys)
    {
      hide GetHash;
      assert BucketValid(model, h, buckets[h]) && Holds(model.chains[h], h, model.index.Keys);
      var chain := Chain(model.chains[h], model.index);
      assert forall j | 0 <= j < |chain| :: chain[j].addr == model.chains[h][j];
    }

    /** A bucket stays valid when its head and the links of its records do not change. */
    twostate lemma BucketKept(i: nat)
      requires i < buckets.Length && i < |model.chains| && unchanged(this) && buckets[i] == old(buckets[i])
      requires old(BucketValid(model, i, buckets[i]))
      requires forall a | a in model.chains[i] ::
                 model.index[a].next == old(model.index[a].next) && model.index[a].prev == old(model.index[a].prev)
      ensures BucketValid(model, i, buckets[i])
    {
      var chain := Chain(model.chains[i], model.index);
      assert forall j | 0 <= j < |chain| :: chain[j] == model.index[model.chains[i][j]];
    }

    /** Work on the records of bucket `h` leaves the other buckets as they were. */
    twostate lemma OtherBucketsKept(h: nat)
      requires old(Valid()) && unchanged(this)
      requires forall i | 0 <= i < BUCKETS && i != h :: buckets[i] == old(buckets[i])
      requires forall r | r in model.records ::
                 && r.addr == old(r.addr) && r.details == old(r.details)
                 && (GetHash(r.addr) != h ==> r.next == old(r.next) && r.prev == old(r.prev))
      ensures Indexed(model) && Described(model) && BucketsValid(model, buckets[..], h)
    {
      hide GetHash, BucketValid;
      forall i | 0 <= i < BUCKETS && i != h
        ensures BucketValid(model, i, buckets[i])
      {
        assert old(BucketValid(model, i, buckets[i])) && Holds(model.chains[i], i, model.index.Keys);
        BucketKept(i);
      }
    }

    /** The debug check before an insertion: walks the bucket and finds the address nowhere. */
    method CheckAbsent(h: nat, addr: nat)
      requires Valid() && h == GetHash(addr) && addr !in model.index
    {
      hide GetHash, TableValid;
      ChainListed(h);
      TableFacts();
      ghost var chain := Chain(model.chains[h], model.index);
      var head := buckets[h];
      ghost var j := 0;
      while head != null
        invariant j <= |chain| && head == At(chain, j)
        decreases |chain| - j
      {
        assert head.addr != addr;
        head, j := head.next, j + 1;
      }
    }

    /** The pointer work of putting a record at the head of a chain. */
    method PushFront(h: nat, info: AllocateInfo, ghost chain: seq<AllocateInfo>)
      requires h < buckets.Length && Linked(buckets[h], chain) && info !in model.records
      requires Listed(h, chain)
      modifies buckets, info`next, model.records`prev
      ensures forall i | 0 <= i < buckets.Length && i != h :: buckets[i] == old(buckets[i])
      ensures Linked(buckets[h], [info] + chain)
      ensures forall r | r in model.records && GetHash(r.addr) != h :: r.prev == old(r.prev)
      ensures forall r | r in model.records :: r.prev == if r == old(buckets[h]) then info else old(r.prev)
    {
      hide GetHash;
      var bucket := buckets[h];
      buckets[h] := info;
      info.next := bucket;
      if bucket != null {
        bucket.prev := info;
      }
      ghost var pushed := [info] + chain;
      forall j | 0 <= j < |pushed|
        ensures pushed[j].next == At(pushed, j + 1) && (j > 0 ==> pushed[j].prev == pushed[j - 1])
      {
        assert j > 0 ==> pushed[j] == chain[j - 1] && At(pushed, j + 1) == At(chain, j);
        assert j > 1 ==> pushed[j - 1] == chain[j - 2];
      }
    }

    method Insert(info: AllocateInfo, ghost block: Block)
      requires Valid() && info.details == Recorded(block)
      requires info !in model.records && info.addr !in model.index && info.next == null && info.prev == null
      modifies this, buckets, info`next, model.records`prev
      ensures Valid() && model == Added(old(model), info, info.addr, block)
      ensures forall r | r in old(model.records) ::
                r.prev == if r == old(buckets[GetHash(info.addr)]) then info else old(r.prev)
    {
      hide GetHash, Linked, TableValid;
      var h := GetHash(info.addr);
      CheckAbsent(h, info.addr);
      ChainListed(h);
      TableFacts();
      PushFront(h, info, Chain(model.chains[h], model.index));
      OtherBucketsKept(h);
      AddedValid(model, buckets[..], info, block);
      model := Added(model, info, info.addr, block);
    }

    lemma LiveIndexed()
      requires Valid()
      ensures model.live.Keys == model.index.Keys
      ensures forall a | a in model.index ::
                model.index[a] in model.records && model.index[a].details == Recorded(model.live[a])
    {
    }

    lemma TableFacts()
      requires Valid()
      ensures buckets.Length == BUCKETS && Placed(model.chains, model.index.Keys) && |model.chains| == BUCKETS
    {
    }

    /** The pointer work of taking record `k`, not the head, out of a chain. */
    method PassBy(ghost h: nat, bucket: AllocateInfo, ghost head: AllocateInfo?, ghost chain: seq<AllocateInfo>,
                  ghost k: nat)
      requires 0 < k < |chain| && bucket == chain[k] && Linked(head, chain)
      requires Listed(h, chain)
      modifies model.records`next, model.records`prev
      ensures Linked(head, chain[..k] + chain[k + 1..])
      ensures forall r | r in model.records && GetHash(r.addr) != h :: r.next == old(r.next) && r.prev == old(r.prev)
    {
      hide GetHash;
      assert bucket.prev == chain[k - 1] && bucket.next == At(chain, k + 1);
      if bucket.prev != null {
        bucket.prev.next := bucket.next;
      }
      if bucket.next != null {
        bucket.next.prev := bucket.prev;
      }
      ghost var cut := chain[..k] + chain[k + 1..];
      forall j | 0 <= j < |cut|
        ensures cut[j].next == At(cut, j + 1) && (j > 0 ==> cut[j].prev == cut[j - 1])
      {
        CutAt(chain, k, j);
      }
    }

    lemma HeadUnlinked(head: AllocateInfo, chain: seq<AllocateInfo>)
      requires Linked(head, chain)
      ensures chain != [] && Linked(head.next, chain[..0] + chain[1..])
    {
      assert chain != [] && head == chain[0];
      assert chain[..0] + chain[1..] == chain[1..];
    }

    /** Takes the head out of bucket `h`. The next record's `prev` goes on pointing at it. */
    method RemoveHead(h: nat, bucket: AllocateInfo)
      requires Valid() && h < BUCKETS == |model.chains| && model.chains[h] != [] && bucket == buckets[h]
      requires model.chains[h][0] in model.index
      modifies this, buckets
      ensures Valid() && model == Dropped(old(model), h, 0)
    {
      hide GetHash, TableValid, Linked, Placed, Distinct;
      ChainListed(h);
      TableFacts();
      HeadUnlinked(bucket, Chain(model.chains[h], model.index));
      buckets[h] := bucket.next;
      OtherBucketsKept(h);
      DroppedValid(model, buckets[..], h, 0);
      model := Dropped(model, h, 0);
    }

    /** Takes record `k`, not the head, out of bucket `h`. */
    method RemoveInner(ghost h: nat, bucket: AllocateInfo, ghost k: nat)
      requires Valid() && h < BUCKETS == |model.chains| && 0 < k < |model.chains[h]|
      requires model.chains[h][k] in model.index && bucket == model.index[model.chains[h][k]]
      modifies this, model.records`next, model.records`prev
      ensures Valid() && model == Dropped(old(model), h, k)
    {
      hide GetHash, Linked, TableValid;
      ChainListed(h);
      TableFacts();
      PassBy(h, bucket, buckets[h], Chain(model.chains[h], model.index), k);
      OtherBucketsKept(h);
      DroppedValid(model, buckets[..], h, k);
      model := Dropped(model, h, k);
    }

    method Remove(addr: nat) returns (r: AllocateInfo?, ghost k: nat)
      requires Valid()
      modifies this, buckets, model.records`next, model.records`prev
      ensures Valid()
      ensures r == null ==> addr !in model.index && unchanged(this) && unchanged(buckets)
                            && unchanged(old(model.records))
      ensures r != null ==>
                var m := old(model); var h := GetHash(addr);
                                     && h < |m.chains| && k < |m.chains[h]| && m.chains[h][k] == addr
                                     && addr in m.index && m.index[addr] == r
                                     && model == Dropped(m, h, k)
    {
      hide GetHash, TableValid;
      var h := GetHash(addr);
      ChainListed(h);
      TableFacts();
      ghost var c := model.chains[h];
      ghost var chain := Chain(c, model.index);
      var bucket := buckets[h];
      if bucket != null {
        if bucket.addr == addr {
          RemoveHead(h, bucket);
          return bucket, 0;
        }
        bucket := bucket.next;
      }
      k := 1;
      while bucket != null
        invariant bucket == At(chain, k)
        invariant forall j | 0 <= j < k && j < |c| :: c[j] != addr
        decreases |chain| - k
      {
        if bucket.addr == addr {
          RemoveInner(h, bucket, k);
          return bucket, k;
        }
        bucket, k := bucket.next, k + 1;
      }
      r := null;
    }

    /** `seen` is what the callback finds in the records visited. */
    method VisitBucket(i: nat) returns (visited: seq<nat>, seen: seq<Details>)
      requires Valid() && i < BUCKETS == buckets.Length == |model.chains|
      ensures visited == model.chains[i]
      ensures SeenIn(visited, seen, model.index)
    {
      hide GetHash, TableValid, SeenIn;
      ChainListed(i);
      ghost var c := model.chains[i];
      ghost var chain := Chain(c, model.index);
      var info := buckets[i];
      NothingSeen(model.index);
      visited, seen := [], [];
      while info != null
        invariant |visited| <= |c| && info == At(chain, |visited|)
        invariant visited == c[..|visited|] && SeenIn(visited, seen, model.index)
        decreases |c| - |visited|
      {
        SeenTogether(visited, seen, [info.addr], [info.details], model.index);
        visited := visited + [info.addr];
        seen := seen + [info.details];
        info := info.next;
      }
    }

    /** Visits the records bucket by bucket; `visited` is the list of their addresses. */
    method ForAllAllocInfo() returns (visited: seq<nat>, seen: seq<Details>)
      requires Valid()
      ensures Distinct(visited)
      ensures forall a :: a in visited <==> a in model.live
      ensures |seen| == |visited| && forall j | 0 <= j < |seen| :: Describes(seen[j], model.live[visited[j]])
    {
      hide GetHash, TableValid, Recorded, SeenIn;
      TableFacts();
      LiveIndexed();
      NothingSeen(model.index);
      visited, seen := [], [];
      for i := 0 to buckets.Length
        invariant visited == Flat(model.chains[..i]) && SeenIn(visited, seen, model.index)
      {
        var more, seenMore := VisitBucket(i);
        assert model.chains[..i + 1][..i] == model.chains[..i];
        SeenTogether(visited, seen, more, seenMore, model.index);
        visited, seen := visited + more, seen + seenMore;
      }
      FlatListsOnce(model.chains, model.index.Keys, BUCKETS);
      RecordedDescribes();
      SeenMeans(visited, seen, model.index);
    }
  }

  lemma NothingSeen(index: map<nat, AllocateInfo>)
    ensures SeenIn([], [], index)
  {
  }

  lemma SeenMeans(visited: seq<nat>, seen: seq<Details>, index: map<nat, AllocateInfo>)
    requires SeenIn(visited, seen, index)
    ensures |seen| == |visited|
    ensures forall j | 0 <= j < |seen| :: visited[j] in index && seen[j] == index[visited[j]].details
  {
  }

  lemma SeenTogether(visited: seq<nat>, seen: seq<Details>, more: seq<nat>, seenMore: seq<Details>,
                     index: map<nat, AllocateInfo>)
    requires SeenIn(visited, seen, index)
    requires SeenIn(more, seenMore, index) || (|more| == |seenMore| == 1 && more[0] in index
                                               && seenMore[0] == index[more[0]].details)
    ensures SeenIn(visited + more, seen + seenMore, index)
  {
  }

  ghost predicate SeenIn(visited: seq<nat>, seen: seq<Details>, index: map<nat, AllocateInfo>)
    reads index.Values
  {
    |seen| == |visited| && forall j | 0 <= j < |seen| :: visited[j] in index && seen[j] == index[visited[j]].details
  }
}
