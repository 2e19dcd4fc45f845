/** What the tracking allocator's counters mean over a whole run.

    `Step` says what one call does to the allocator's observable state; the class `MemTrackAllocator` is proved
    against it. The lemmas here speak of the state after any history of calls. */
module MemHistory {
  import opened Machine
  import opened MemTrack

  /** `live` maps the address of each tracked block to the block. The four counters are 64-bit and wrap.
      `records` is the number of records ever made, `spare` the number waiting to be used again. */
  datatype Tracker = Tracker(live: map<nat, Block>, size: nat, count: nat, peakSize: nat, peakCount: nat,
                             records: nat, spare: nat)

  /** One call. `address` is what the wrapped allocator answers (0 for failure), and `roomForRecord` whether
      memory for one more record could be had. */
  datatype Event =
    | Allocate(block: Block, address: nat, roomForRecord: bool)
    | AllocateUntracked(address: nat)
    | DeAllocate(address: nat)

  const Fresh := Tracker(map[], 0, 0, 0, 0, 0, 0)

  function Max(a: nat, b: nat): nat {
    if a < b then b else a
  }

  /** A 64-bit counter's view of a number. */
  function Wrap(n: int): (r: nat)
    ensures r < UINT64_LIMIT
  {
    n % UINT64_LIMIT
  }

  lemma WrapOnce(a: int, b: int)
    ensures Wrap(Wrap(a) + b) == Wrap(a + b)
  {
    assert a == a / UINT64_LIMIT * UINT64_LIMIT + a % UINT64_LIMIT;
    WrapPeriod(a % UINT64_LIMIT + b, a / UINT64_LIMIT);
  }

  lemma {:induction false} WrapPeriod(x: int, q: int)
    ensures Wrap(x + q * UINT64_LIMIT) == Wrap(x)
    decreases if q < 0 then -q else q
  {
    if q > 0 {
      WrapPeriod(x, q - 1);
      assert x + q * UINT64_LIMIT == x + (q - 1) * UINT64_LIMIT + UINT64_LIMIT;
    } else if q < 0 {
      WrapPeriod(x, q + 1);
      assert x + q * UINT64_LIMIT == x + (q + 1) * UINT64_LIMIT - UINT64_LIMIT;
    }
  }

  lemma WrapSmall(n: nat)
    requires n < UINT64_LIMIT
    ensures Wrap(n) == n
  {
  }

  /** An allocated block is tracked when it exists and a record for it can be had. */
  predicate CanTrack(t: Tracker, address: nat, roomForRecord: bool) {
    address != 0 && (t.spare > 0 || roomForRecord)
  }

  lemma WrapCancel(a: int, b: int)
    ensures Wrap(a + b) == Wrap(a) <==> Wrap(b) == 0
  {
    WrapOnce(a, b);
    WrapOnce(b, Wrap(a));
  }

  /** A record is taken for use: a spare one if there is one, else a new one. */
  function RecordTaken(t: Tracker): Tracker {
    if t.spare == 0 then t.(records := t.records + 1) else t.(spare := t.spare - 1)
  }

  /** A block of the given size enters the counters. */
  function CountedIn(t: Tracker, size: nat): Tracker {
    var size', count' := Wrap(t.size + size), Wrap(t.count + 1);
    t.(size := size', count := count', peakSize := Max(t.peakSize, size'), peakCount := Max(t.peakCount, count'))
  }

  function Allocated(t: Tracker, block: Block, address: nat, roomForRecord: bool): Tracker {
    if CanTrack(t, address, roomForRecord)
    then CountedIn(RecordTaken(t), block.size).(live := t.live[address := block])
    else t
  }

  function DeAllocated(t: Tracker, address: nat): Tracker {
    if address == 0 || address !in t.live then t
    else
      t.(live := t.live - {address},
      size := Wrap(t.size - ToInt32(t.live[address].size)),
      count := Wrap(t.count - 1),
      spare := t.spare + 1)
  }

  function Step(t: Tracker, e: Event): Tracker {
    match e
    case Allocate(block, address, room) => Allocated(t, block, address, room)
    case AllocateUntracked(_) => t
    case DeAllocate(address) => DeAllocated(t, address)
  }

  /** The wrapped allocator answers with a 64-bit address that no live tracked block has. */
  predicate Possible(t: Tracker, e: Event) {
    e.Allocate? ==> e.address < UINT64_LIMIT && e.address !in t.live
  }

  function Run(h: seq<Event>): Tracker {
    if h == [] then Fresh else Step(Run(h[..|h| - 1]), h[|h| - 1])
  }

  predicate PossibleRun(h: seq<Event>) {
    h == [] || (PossibleRun(h[..|h| - 1]) && Possible(Run(h[..|h| - 1]), h[|h| - 1]))
  }

  lemma {:induction false} RunStep(h: seq<Event>, i: nat)
    requires PossibleRun(h) && i < |h|
    ensures PossibleRun(h[..i]) && Possible(Run(h[..i]), h[i]) && Run(h[..i + 1]) == Step(Run(h[..i]), h[i])
  {
    var past := h[..|h| - 1];
    if i < |past| {
      RunStep(past, i);
      assert past[..i] == h[..i] && past[..i + 1] == h[..i + 1];
    } else {
      assert h[..i + 1] == h;
    }
  }

  // ---------- Which blocks are live ----------

  /** At some moment before event `i` more blocks were live than just before it: so a record is to spare. */
  ghost predicate BeenMore(h: seq<Event>, i: nat)
    requires i <= |h|
  {
    exists m | 0 <= m < i :: |Run(h[..m]).live| > |Run(h[..i]).live|
  }

  /** Event `i` makes a tracked block at `address`. */
  ghost predicate Tracks(h: seq<Event>, i: nat, address: nat)
    requires i < |h|
  {
    h[i].Allocate? && h[i].address == address && address != 0 && (h[i].roomForRecord || BeenMore(h, i))
  }

  lemma SpareMeans(h: seq<Event>)
    requires PossibleRun(h)
    ensures Run(h).spare > 0 <==> BeenMore(h, |h|)
  {
    hide Drift, Wrap, TotalSize;
    assert h[..|h|] == h;
    Conservation(h);
    PeakCountIsMaximum(h);
    hide Run;
    var i :| 0 <= i <= |h| && |Run(h[..i]).live| == Run(h).peakCount;
  }

  lemma BeenMoreEarlier(h: seq<Event>, n: nat, i: nat)
    requires i <= n <= |h|
    ensures BeenMore(h[..n], i) <==> BeenMore(h, i)
  {
    hide Run;
    forall m | 0 <= m <= i
      ensures h[..n][..m] == h[..m]
    {
    }
  }

  lemma TracksMeans(h: seq<Event>, i: nat)
    requires PossibleRun(h) && i < |h| && h[i].Allocate?
    ensures Tracks(h, i, h[i].address) <==> CanTrack(Run(h[..i]), h[i].address, h[i].roomForRecord)
  {
    hide Run, PossibleRun, BeenMore;
    RunStep(h, i);
    SpareMeans(h[..i]);
    BeenMoreEarlier(h, i, i);
  }

  /** A block is tracked exactly if there is one, and memory for a record can be had or more blocks were live before
      than are now. */
  lemma TrackedExactly(h: seq<Event>, i: nat)
    requires PossibleRun(h) && i < |h| && h[i].Allocate?
    ensures h[i].address in Run(h[..i + 1]).live <==>
            h[i].address != 0 && (h[i].roomForRecord || BeenMore(h, i))
    ensures h[i].address in Run(h[..i + 1]).live ==> Run(h[..i + 1]).live[h[i].address] == h[i].block
  {
    hide Run, PossibleRun, BeenMore;
    TracksMeans(h, i);
    RunStep(h, i);
  }

  /** The block made by event `i` is still there at the end. */
  ghost predicate Survives(h: seq<Event>, i: nat, address: nat)
    requires i < |h|
  {
    Tracks(h, i, address) && forall j | i < j < |h| :: h[j] != DeAllocate(address)
  }

  lemma SurvivesStep(h: seq<Event>, i: nat, address: nat)
    requires h != [] && i < |h| - 1
    ensures Survives(h, i, address) <==> Survives(h[..|h| - 1], i, address) && h[|h| - 1] != DeAllocate(address)
  {
    hide BeenMore;
    BeenMoreEarlier(h, |h| - 1, i);
  }

  lemma {:induction false} SurvivorIsLive(h: seq<Event>, i: nat, address: nat)
    requires PossibleRun(h) && i < |h| && Survives(h, i, address)
    ensures address in Run(h).live && Run(h).live[address] == h[i].block
  {
    var n := |h| - 1;
    var past := h[..n];
    assert PossibleRun(past);
    LiveStep(h, address);
    hide Run, PossibleRun, Survives, Tracks;
    if i < n {
      SurvivesStep(h, i, address);
      SurvivorIsLive(past, i, address);
      assert !Survives(h, n, address);
    }
  }

  lemma {:induction false} LiveHasSurvivor(h: seq<Event>, address: nat) returns (i: nat)
    requires PossibleRun(h) && address in Run(h).live
    ensures i < |h| && Survives(h, i, address)
  {
    var n := |h| - 1;
    var past := h[..n];
    assert PossibleRun(past);
    LiveStep(h, address);
    hide Run, PossibleRun, Survives, Tracks;
    if Survives(h, n, address) {
      i := n;
    } else {
      i := LiveHasSurvivor(past, address);
      SurvivesStep(h, i, address);
    }
  }

  /** The live map holds exactly the tracked blocks not freed since. */
  lemma LiveIsAllocatedNotFreed(h: seq<Event>, address: nat)
    requires PossibleRun(h)
    ensures address in Run(h).live <==> exists i :: 0 <= i < |h| && Survives(h, i, address)
    ensures forall i | 0 <= i < |h| && Survives(h, i, address) ::
              address in Run(h).live && h[i].Allocate? && Run(h).live[address] == h[i].block
  {
    hide Run, PossibleRun;
    forall i | 0 <= i < |h| && Survives(h, i, address)
      ensures address in Run(h).live && Run(h).live[address] == h[i].block
    {
      SurvivorIsLive(h, i, address);
    }
    if address in Run(h).live {
      var i := LiveHasSurvivor(h, address);
    }
  }

  lemma LiveStep(h: seq<Event>, address: nat)
    requires h != [] && PossibleRun(h)
    ensures var n, t' := |h| - 1, Run(h);
            var t, e := Run(h[..n]), h[n];
            if Survives(h, n, address) then
              e.Allocate? && address !in t.live && address in t'.live && t'.live[address] == e.block
            else
              && (address in t'.live <==> address in t.live && (e != DeAllocate(address) || address == 0))
              && (address in t'.live ==> t'.live[address] == t.live[address])
    ensures address == 0 ==> address !in Run(h[..|h| - 1]).live
  {
    hide BeenMore;
    NullIsNeverLive(h[..|h| - 1]);
    if h[|h| - 1].Allocate? {
      TracksMeans(h, |h| - 1);
    }
  }

  lemma {:induction false} NullIsNeverLive(h: seq<Event>)
    ensures 0 !in Run(h).live
  {
    if h != [] {
      NullIsNeverLive(h[..|h| - 1]);
    }
  }

  // ---------- The counters ----------

  ghost function TotalSize(live: map<nat, Block>): nat {
    if live == map[] then 0
    else
      var a :| a in live;
      live[a].size + TotalSize(live - {a})
  }

  lemma {:induction false} TotalSizeSplit(live: map<nat, Block>, a: nat)
    requires a in live
    ensures TotalSize(live) == live[a].size + TotalSize(live - {a})
    decreases |live|
  {
    var b :| b in live && TotalSize(live) == live[b].size + TotalSize(live - {b});
    if b != a {
      TotalSizeSplit(live - {b}, a);
      TotalSizeSplit(live - {a}, b);
      assert live - {b} - {a} == live - {a} - {b};
    }
  }

  lemma {:induction false} FewerThanBound(s: set<nat>, n: nat)
    requires forall a | a in s :: 0 < a < n
    ensures n > 0 ==> |s| < n
    decreases n
  {
    if n > 0 && s != {} {
      if n - 1 in s {
        FewerThanBound(s - {n - 1}, n - 1);
      } else {
        FewerThanBound(s, n - 1);
      }
    }
  }

  /** What the 32-bit size field of the records has cost so far: for every block freed, the part of its size
      that the field could not hold. It is a multiple of 2^32. */
  function Drift(h: seq<Event>): (d: int)
    ensures d % 0x1_0000_0000 == 0
  {
    if h == [] then 0
    else
      var past := h[..|h| - 1];
      var e := h[|h| - 1];
      var t := Run(past);
      if e.DeAllocate? && e.address != 0 && e.address in t.live
      then Drift(past) + (t.live[e.address].size - ToInt32(t.live[e.address].size))
      else Drift(past)
  }

  /** The counters, the live blocks and the records fit together, given the drift `d` so far. */
  ghost predicate Balanced(t: Tracker, d: int) {
    && (forall a | a in t.live :: 0 < a < UINT64_LIMIT)
    && t.count == |t.live| < UINT64_LIMIT
    && t.size == Wrap(TotalSize(t.live) + d)
    && t.records == t.count + t.spare == t.peakCount
  }

  lemma LiveAdded(live: map<nat, Block>, a: nat, block: Block)
    requires a !in live && 0 < a < UINT64_LIMIT && forall x | x in live :: 0 < x < UINT64_LIMIT
    ensures TotalSize(live[a := block]) == TotalSize(live) + block.size
    ensures |live[a := block]| == |live| + 1 < UINT64_LIMIT
  {
    hide TotalSize;
    var more := live[a := block];
    assert |more| == |live| + 1 < UINT64_LIMIT by {
      assert more.Keys == live.Keys + {a};
      FewerThanBound(more.Keys, UINT64_LIMIT);
    }
    assert TotalSize(more) == TotalSize(live) + block.size by {
      TotalSizeSplit(more, a);
      assert more - {a} == live;
    }
  }

  lemma LiveRemoved(live: map<nat, Block>, a: nat)
    requires a in live
    ensures TotalSize(live - {a}) == TotalSize(live) - live[a].size
    ensures |live - {a}| == |live| - 1
  {
    hide TotalSize;
    TotalSizeSplit(live, a);
    assert live.Keys == (live - {a}).Keys + {a};
  }

  lemma AllocatedBalanced(t: Tracker, d: int, block: Block, address: nat, room: bool)
    requires Balanced(t, d) && address < UINT64_LIMIT && address !in t.live
    ensures Balanced(Allocated(t, block, address, room), d)
  {
    hide Wrap, TotalSize;
    if CanTrack(t, address, room) {
      LiveAdded(t.live, address, block);
      WrapSmall(t.count + 1);
      WrapOnce(TotalSize(t.live) + d, block.size);
    }
  }

  lemma DeAllocatedBalanced(t: Tracker, d: int, address: nat)
    requires Balanced(t, d) && address in t.live
    ensures Balanced(DeAllocated(t, address), d + (t.live[address].size - ToInt32(t.live[address].size)))
  {
    hide Wrap, ToInt32, TotalSize;
    LiveRemoved(t.live, address);
    WrapSmall(t.count - 1);
    WrapOnce(TotalSize(t.live) + d, -ToInt32(t.live[address].size));
  }

  /** Conservation over any run. In particular the number of records ever made is the peak count. */
  lemma {:induction false} Conservation(h: seq<Event>)
    requires PossibleRun(h)
    ensures Balanced(Run(h), Drift(h))
  {
    hide Allocated, DeAllocated, CanTrack;
    if h == [] {
      assert TotalSize(map[]) == 0;
    } else {
      var past := h[..|h| - 1];
      var e := h[|h| - 1];
      Conservation(past);
      if e.Allocate? {
        AllocatedBalanced(Run(past), Drift(past), e.block, e.address, e.roomForRecord);
      } else if e.DeAllocate? && e.address in Run(past).live {
        DeAllocatedBalanced(Run(past), Drift(past), e.address);
      } else if e.DeAllocate? {
        assert DeAllocated(Run(past), e.address) == Run(past) by {
          UntrackedIgnored(Run(past), e.address);
        }
      }
    }
  }

  lemma UntrackedIgnored(t: Tracker, address: nat)
    requires address !in t.live
    ensures DeAllocated(t, address) == t
  {
  }

  /** The size counter is the total of the live sizes exactly when no drift shows in 64 bits. */
  lemma SizeCounterExact(h: seq<Event>)
    requires PossibleRun(h)
    ensures Run(h).size == Wrap(TotalSize(Run(h).live)) <==> Wrap(Drift(h)) == 0
  {
    hide Wrap, TotalSize, Drift, Run, PossibleRun;
    Conservation(h);
    var total, d := TotalSize(Run(h).live), Drift(h);
    WrapCancel(total, d);
  }

  /** Event `i` frees a tracked block of 2 GiB or more. */
  ghost predicate FreesLarge(h: seq<Event>, i: int) {
    && 0 <= i < |h| && h[i].DeAllocate? && h[i].address != 0
    && h[i].address in Run(h[..i]).live && Run(h[..i]).live[h[i].address].size >= 0x8000_0000
  }

  lemma FieldLoss(n: nat)
    ensures n - ToInt32(n) >= 0 && (n == ToInt32(n) <==> n < 0x8000_0000)
  {
  }

  /** Nothing drifts exactly as long as no tracked block of 2 GiB or more is freed. */
  lemma {:induction false} DriftIsZero(h: seq<Event>)
    ensures Drift(h) >= 0 && (Drift(h) == 0 <==> forall i :: !FreesLarge(h, i))
  {
    hide ToInt32, Step;
    if h != [] {
      var n := |h| - 1;
      var past, e := h[..n], h[n];
      DriftIsZero(past);
      if e.DeAllocate? && e.address in Run(past).live {
        FieldLoss(Run(past).live[e.address].size);
      }
      forall i
        ensures FreesLarge(past, i) <==> i < n && FreesLarge(h, i)
      {
        if 0 <= i < n {
          assert past[..i] == h[..i];
        }
      }
      assert FreesLarge(h, n) <==> Drift(h) != Drift(past);
    }
  }

  /** So, while the loss fits 64 bits, the size counter is the total of the live sizes exactly as long as no tracked
      block of 2 GiB or more has been freed. */
  lemma SizeCounterExactWhile(h: seq<Event>)
    requires PossibleRun(h) && Drift(h) < UINT64_LIMIT
    ensures Run(h).size == Wrap(TotalSize(Run(h).live)) <==> forall i :: !FreesLarge(h, i)
  {
    hide Run, PossibleRun, FreesLarge, TotalSize, Drift;
    SizeCounterExact(h);
    DriftIsZero(h);
    WrapSmall(Drift(h));
  }

  /** In particular while every block is smaller than 2 GiB. */
  lemma {:induction false} SmallBlocksDoNotDrift(h: seq<Event>)
    requires PossibleRun(h)
    requires SmallBlocks(h)
    ensures Drift(h) == 0
    ensures forall a | a in Run(h).live :: Run(h).live[a].size < 0x8000_0000
  {
    if h != [] {
      SmallBlocksDoNotDrift(h[..|h| - 1]);
    }
  }

  /** A block of 2 GiB, allocated and freed, leaves the size counter at 4 GiB with nothing live,
      above the peak size. */
  lemma LargeBlockDrifts(address: nat)
    requires 0 < address < UINT64_LIMIT
    ensures var h := [Allocate(Block(0x8000_0000, "", "", 0), address, true), DeAllocate(address)];
            PossibleRun(h) && Run(h).live == map[] &&
            Run(h).size == 0x1_0000_0000 && Run(h).peakSize == 0x8000_0000
  {
    var a := Allocate(Block(0x8000_0000, "", "", 0), address, true);
    var h := [a, DeAllocate(address)];
    assert h[..1] == [a] && [a][..0] == [];
    assert Run([]) == Fresh && Run([a]) == Step(Fresh, a);
    assert Run(h) == Step(Run([a]), DeAllocate(address));
    assert PossibleRun([]);
    assert PossibleRun([a]);
    assert map[address := a.block] - {address} == map[];
  }

  /** The peaks are taken when a block is tracked. At the start both counters are 0. */
  ghost predicate Sampled(h: seq<Event>, i: nat)
    requires i <= |h|
  {
    i == 0 || (h[i - 1].Allocate? && Tracks(h, i - 1, h[i - 1].address))
  }

  lemma PeakStep(past: seq<Event>, e: Event)
    requires PossibleRun(past)
    ensures var t, t' := Run(past), Step(Run(past), e);
            var tracks := e.Allocate? && CanTrack(t, e.address, e.roomForRecord);
            && t'.peakSize == (if tracks then Max(t.peakSize, t'.size) else t.peakSize)
            && t'.count <= t'.peakCount && (t'.peakCount == t.peakCount || t'.peakCount == t'.count)
            && t.peakCount <= t'.peakCount
  {
    hide Wrap, TotalSize, Drift;
    Conservation(past);
    var t := Run(past);
    hide Run;
    if e.DeAllocate? && e.address in t.live {
      LiveRemoved(t.live, e.address);
      WrapSmall(t.count - 1);
    }
  }

  lemma SampledStep(h: seq<Event>, i: nat)
    requires h != [] && i < |h|
    ensures h[..|h| - 1][..i] == h[..i] && (Sampled(h[..|h| - 1], i) <==> Sampled(h, i))
  {
    hide BeenMore;
    if i > 0 {
      BeenMoreEarlier(h, |h| - 1, i - 1);
    }
  }

  /** The peak size is the greatest value the size counter had where it is sampled. */
  lemma {:induction false} PeakSizeIsSampledMaximum(h: seq<Event>)
    requires PossibleRun(h)
    ensures forall i | 0 <= i <= |h| && Sampled(h, i) :: Run(h[..i]).size <= Run(h).peakSize
    ensures exists i | 0 <= i <= |h| :: Sampled(h, i) && Run(h[..i]).size == Run(h).peakSize
  {
    hide Step, BeenMore;
    assert h[..|h|] == h;
    if h == [] {
      assert Sampled(h, 0) && Run(h[..0]) == Fresh;
    } else {
      var n := |h| - 1;
      var past := h[..n];
      PeakSizeIsSampledMaximum(past);
      PeakStep(past, h[n]);
      if h[n].Allocate? {
        TracksMeans(h, n);
      }
      forall i | 0 <= i <= n
        ensures past[..i] == h[..i] && (Sampled(past, i) <==> Sampled(h, i))
      {
        SampledStep(h, i);
      }
      hide Run, Sampled, PossibleRun;
      var i :| 0 <= i <= n && Sampled(past, i) && Run(past[..i]).size == Run(past).peakSize;
      var j := if Run(h).peakSize == Run(past).peakSize then i else n + 1;
      assert Sampled(h, j) && Run(h[..j]).size == Run(h).peakSize;
    }
  }

  /** The peak count is the greatest number of tracked blocks that were ever live together. */
  lemma {:induction false} PeakCountIsMaximum(h: seq<Event>)
    requires PossibleRun(h)
    ensures forall i | 0 <= i <= |h| :: |Run(h[..i]).live| <= Run(h).peakCount
    ensures exists i | 0 <= i <= |h| :: |Run(h[..i]).live| == Run(h).peakCount
  {
    hide Step, TotalSize, Wrap, Drift;
    assert h[..|h|] == h;
    Conservation(h);
    if h == [] {
      assert |Run(h[..0]).live| == Run(h).peakCount;
    } else {
      var n := |h| - 1;
      var past := h[..n];
      assert forall i | 0 <= i <= n :: past[..i] == h[..i];
      PeakCountIsMaximum(past);
      PeakStep(past, h[n]);
      hide Run, PossibleRun;
      var i :| 0 <= i <= n && |Run(past[..i]).live| == Run(past).peakCount;
      var j := if Run(h).peakCount == Run(past).peakCount then i else n + 1;
      assert |Run(h[..j]).live| == Run(h).peakCount;
    }
  }

  predicate SmallBlocks(h: seq<Event>) {
    forall i | 0 <= i < |h| && h[i].Allocate? :: h[i].block.size < 0x8000_0000
  }

  lemma SmallSizeExact(h: seq<Event>)
    requires PossibleRun(h) && SmallBlocks(h) && TotalSize(Run(h).live) < UINT64_LIMIT
    ensures Run(h).size == TotalSize(Run(h).live)
  {
    hide Wrap, TotalSize, Run, PossibleRun;
    Conservation(h);
    SmallBlocksDoNotDrift(h);
    WrapSmall(TotalSize(Run(h).live));
  }

  lemma FreeingLowersTotal(t: Tracker, e: Event)
    requires !e.Allocate? || !CanTrack(t, e.address, e.roomForRecord)
    ensures TotalSize(Step(t, e).live) <= TotalSize(t.live)
  {
    if e.DeAllocate? && e.address in t.live {
      TotalSizeSplit(t.live, e.address);
    }
  }

  /** While blocks stay below 2 GiB and their total fits 64 bits, freeing never raises the size counter, so the
      peak size is the greatest total the live blocks ever had. */
  lemma {:induction false} PeakSizeIsMaximum(h: seq<Event>)
    requires PossibleRun(h) && SmallBlocks(h)
    requires forall i | 0 <= i <= |h| :: TotalSize(Run(h[..i]).live) < UINT64_LIMIT
    ensures forall i | 0 <= i <= |h| :: TotalSize(Run(h[..i]).live) <= Run(h).peakSize
    ensures exists i | 0 <= i <= |h| :: TotalSize(Run(h[..i]).live) == Run(h).peakSize
  {
    hide Step, TotalSize;
    assert h[..|h|] == h;
    SmallSizeExact(h);
    if h == [] {
      assert TotalSize(Run(h[..0]).live) == Run(h).peakSize;
    } else {
      var n := |h| - 1;
      var past, e := h[..n], h[n];
      assert past[..n] == past;
      assert forall i | 0 <= i <= n :: past[..i] == h[..i];
      SmallSizeExact(past);
      PeakSizeIsMaximum(past);
      PeakStep(past, e);
      var t, t' := Run(past), Run(h);
      if !e.Allocate? || !CanTrack(t, e.address, e.roomForRecord) {
        FreeingLowersTotal(t, e);
      }
      var i :| 0 <= i <= n && TotalSize(Run(past[..i]).live) == t.peakSize;
      var j := if t'.peakSize == t.peakSize then i else n + 1;
      assert TotalSize(Run(h[..j]).live) == t'.peakSize;
    }
  }
}
