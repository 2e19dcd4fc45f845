/** The allocator itself: the hash table of live records, the list of spare ones, and the counters. */
module MemTrackAllocator {
  import opened Sequences
  import opened MemTrack
  import opened MemHistory

  lemma DroppedMeans(m: Model, h: nat, k: nat)
    requires h < |m.chains| && k < |m.chains[h]| && m.chains[h][k] in m.index
    ensures var a, m' := m.chains[h][k], Dropped(m, h, k);
            m'.live == m.live - {a} && m'.records == m.records - {m.index[a]}
  {
  }

  lemma OneLoose(made: set<AllocateInfo>, m: Model, m': Model, free: seq<AllocateInfo>, r: AllocateInfo, p: nat)
    requires m.records <= made && r in m.records && |made| == |m.live| + |free|
    requires forall x | x in free :: x in made && x !in m.records
    requires p in m.live && m'.live == m.live - {p} && m'.records == m.records - {r}
    ensures m'.records <= made && r in made && r !in m'.records && |made| == |m'.live| + |free| + |{r}|
    ensures forall x | x in free :: x in made && x !in m'.records && x != r
  {
    LiveRemoved(m.live, p);
  }

  class TrackAllocator {
    const table: AllocHashTable
    var freeInfo: AllocateInfo?
    var allocatedSize: nat
    var allocatedCount: nat
    var peakSize: nat
    var peakCount: nat

    ghost var free: seq<AllocateInfo>
    ghost var made: set<AllocateInfo>  // every record ever made

    /** The spare records, in the order of the free list. */
    ghost predicate FreeListed()
      reads this, free
    {
      && freeInfo == At(free, 0)
      && (forall j | 0 <= j < |free| :: free[j].next == At(free, j + 1))
      && (forall j, k | 0 <= j < k < |free| :: free[j] != free[k])
    }

    /** `loose` records, at most one, are in use but neither in the table nor on the free list. */
    ghost predicate Accounted(loose: set<AllocateInfo>)
      reads this, table
    {
      && table.model.records <= made && loose <= made && loose !! table.model.records
      && (forall r | r in free :: r in made && r !in table.model.records && r !in loose)
      && |made| == |table.model.live| + |free| + |loose|
    }

    ghost predicate Valid()
      reads this, table, table.buckets, table.model.records, free
    {
      table.Valid() && FreeListed() && Accounted({})
    }

    /** The observable state. */
    ghost function View(): Tracker
      reads this, table
    {
      Tracker(table.model.live, allocatedSize, allocatedCount, peakSize, peakCount, |made|, |free|)
    }

    constructor ()
      ensures Valid() && View() == Fresh && fresh(table) && fresh(table.buckets) && made == {}
    {
      table := new AllocHashTable();
      freeInfo := null;
      allocatedSize, allocatedCount, peakSize, peakCount := 0, 0, 0, 0;
      free, made := [], {};
    }

    method GetNextFreeInfo() returns (r: AllocateInfo?)
      requires FreeListed()
      modifies this`freeInfo, this`free
      ensures FreeListed()
      ensures if old(free) == [] then r == null && free == [] else r == old(free)[0] && free == old(free)[1..]
    {
      if freeInfo != null {
        r := freeInfo;
        freeInfo := freeInfo.next;
        free := free[1..];
        return;
      }
      return null;
    }

    method AddFreeInfo(info: AllocateInfo)
      requires FreeListed() && info !in free
      modifies this`freeInfo, this`free, info`next, info`prev
      ensures FreeListed() && free == [info] + old(free)
    {
      info.next := freeInfo;
      info.prev := null;
      freeInfo := info;
      free := [info] + free;
    }

    /** A record to fill in: a spare one, or a new one when there is room. */
    method TakeRecord(room: bool) returns (r: AllocateInfo?)
      requires Valid()
      modifies this`freeInfo, this`free, this`made
      ensures table.Valid() && FreeListed()
      ensures r == null <==> !room && old(View()).spare == 0
      ensures r == null ==> unchanged(this)
      ensures r != null ==> Accounted({r}) && View() == RecordTaken(old(View()))
      ensures r != null ==> if r in old(made) then made == old(made) else made == old(made) + {r} && fresh(r)
    {
      hide AllocHashTable.Valid;
      r := GetNextFreeInfo();
      if r == null && room {
        r := new AllocateInfo();
        made := made + {r};
      }
    }

    method Fill(r: AllocateInfo, addr: nat, details: Details)
      requires table.Valid() && FreeListed() && Accounted({r})
      modifies r
      ensures table.Valid() && FreeListed() && Accounted({r})
      ensures r.addr == addr && r.next == null && r.prev == null && r.details == details
    {
      hide AllocHashTable.Valid;
      r.addr := addr;
      r.details := details;
      r.next := null;
      r.prev := null;
    }

    method CountIn(size: nat)
      modifies this`allocatedSize, this`allocatedCount, this`peakSize, this`peakCount
      ensures View() == CountedIn(old(View()), size)
    {
      hide Wrap, Max;
      allocatedSize := Wrap(allocatedSize + size);
      allocatedCount := Wrap(allocatedCount + 1);
      peakSize := Max(peakSize, allocatedSize);
      peakCount := Max(peakCount, allocatedCount);
    }

    /** Puts a filled-in record into the table. */
    method Enter(r: AllocateInfo, ghost block: Block)
      requires table.Valid() && FreeListed() && Accounted({r})
      requires r.addr !in View().live && r.next == null && r.prev == null && r.details == Recorded(block)
      modifies table, table.buckets, r`next, table.model.records`prev
      ensures Valid() && View() == old(View()).(live := old(View()).live[r.addr := block])
    {
      hide AllocHashTable.Valid, GetHash;
      table.LiveIndexed();
      table.Insert(r, block);
    }

    /** The tracked allocation. `allocatedAddr` is the wrapped allocator's answer and `room` whether the memory
        for a new record could be had. */
    method Allocate(size: nat, file: string, func: string, line: int, allocatedAddr: nat, room: bool)
      returns (r: nat)
      requires Valid() && allocatedAddr !in View().live
      modifies this, table, table.buckets, made
      ensures Valid() && fresh(made - old(made))
      ensures r == allocatedAddr
      ensures View() == Allocated(old(View()), Block(size, file, func, line), allocatedAddr, room)
    {
      hide AllocHashTable.Valid, Wrap, Max, ToInt32, View;
      if allocatedAddr != 0 {
        var newInfo := TakeRecord(room);
        if newInfo != null {
          Fill(newInfo, allocatedAddr, Details(file, func, line, ToInt32(size)));
          CountIn(size);
          Enter(newInfo, Block(size, file, func, line));
        }
      }
      return allocatedAddr;
    }

    /** The untracked allocation only passes the wrapped allocator's answer on. */
    method AllocateUntracked(size: nat, allocatedAddr: nat) returns (r: nat)
      ensures r == allocatedAddr
    {
      return allocatedAddr;
    }

    /** Takes the record of address `p`, if it has one, out of the table. */
    method Leave(p: nat) returns (r: AllocateInfo?)
      requires Valid()
      modifies table, table.buckets, table.model.records`next, table.model.records`prev
      ensures table.Valid() && FreeListed() && Accounted(if r == null then {} else {r})
      ensures r == null ==> p !in old(table.model.live) && table.model == old(table.model)
      ensures r != null ==>
                && p in old(table.model.live) && r.details == Recorded(old(table.model.live)[p])
                && table.model.live == old(table.model.live) - {p} && r !in free && r in made
    {
      hide AllocHashTable.Valid, GetHash, Dropped, FreeListed, Recorded;
      table.LiveIndexed();
      ghost var k;
      ghost var m := table.model;
      r, k := table.Remove(p);
      if r != null {
        DroppedMeans(m, GetHash(p), k);
        OneLoose(made, m, table.model, free, r, p);
      }
    }

    /** Counts a record that has left the table out and keeps it for later. */
    method Retire(r: AllocateInfo)
      requires table.Valid() && FreeListed() && Accounted({r}) && r !in free
      modifies this`freeInfo, this`free, this`allocatedSize, this`allocatedCount, r`next, r`prev
      ensures Valid()
      ensures View() == old(View()).(size := Wrap(old(allocatedSize) - old(r.details.allocSize)),
                        count := Wrap(old(allocatedCount) - 1), spare := |old(free)| + 1)
    {
      hide AllocHashTable.Valid, Wrap;
      allocatedSize := Wrap(allocatedSize - r.details.allocSize);
      allocatedCount := Wrap(allocatedCount - 1);
      AddFreeInfo(r);
    }

    method DeAllocate(p: nat)
      requires Valid()
      modifies this, table, table.buckets, made
      ensures Valid() && made == old(made)
      ensures View() == DeAllocated(old(View()), p)
    {
      hide AllocHashTable.Valid, Wrap, FreeListed, ToInt32;
      if p != 0 {
        var freeInfo := Leave(p);
        if freeInfo != null {
          Retire(freeInfo);
        }
      }
    }
  }

  /** One call on the allocator. */
  method Make(t: TrackAllocator, e: Event)
    requires t.Valid() && Possible(t.View(), e)
    modifies t, t.table, t.table.buckets, t.made
    ensures t.Valid() && fresh(t.made - old(t.made))
    ensures t.View() == Step(old(t.View()), e)
  {
    hide AllocHashTable.Valid, Allocated, DeAllocated;
    match e {
      case Allocate(block, address, room) =>
        var r := t.Allocate(block.size, block.file, block.func, block.line, address, room);
      case AllocateUntracked(address) =>
        var r := t.AllocateUntracked(0, address);
      case DeAllocate(address) =>
        t.DeAllocate(address);
    }
  }

  /** The addresses of the live blocks, each once, and what is known of them. */
  method Left(t: TrackAllocator) returns (left: seq<nat>, seen: seq<Details>)
    requires t.Valid()
    ensures Distinct(left) && forall a :: a in left <==> a in t.View().live
    ensures |seen| == |left| && forall j | 0 <= j < |left| :: Describes(seen[j], t.View().live[left[j]])
  {
    hide AllocHashTable.Valid;
    left, seen := t.table.ForAllAllocInfo();
  }

  lemma EmptyRun()
    ensures Run([]) == Fresh
  {
  }

  /** A whole run, from a new allocator to the visit of what is left at the end: the state is that of the history of
      calls, and the visit lists each block that was tracked and not freed since once, with what the allocation told of
      it, and nothing else. */
  method Lifetime(h: seq<Event>) returns (t: TrackAllocator, left: seq<nat>, seen: seq<Details>)
    requires PossibleRun(h)
    ensures t.Valid() && t.View() == Run(h)
    ensures Distinct(left)
    ensures forall a :: a in left <==> exists i :: 0 <= i < |h| && Survives(h, i, a)
    ensures |seen| == |left|
    ensures forall i, j | 0 <= i < |h| && 0 <= j < |left| && Survives(h, i, left[j]) ::
              h[i].Allocate? && Describes(seen[j], h[i].block)
  {
    hide AllocHashTable.Valid, TrackAllocator.Valid, PossibleRun, Run, Step, Survives, Describes;
    t := new TrackAllocator();
    EmptyRun();
    var i := 0;
    while i < |h|
      invariant i <= |h| && t.Valid() && t.View() == Run(h[..i])
      invariant fresh(t) && fresh(t.table) && fresh(t.table.buckets) && fresh(t.made)
    {
      RunStep(h, i);
      Make(t, h[i]);
      i := i + 1;
    }
    assert h[..i] == h;
    left, seen := Left(t);
    forall a
      ensures a in left <==> exists i :: 0 <= i < |h| && Survives(h, i, a)
      ensures forall i | 0 <= i < |h| && Survives(h, i, a) ::
                a in Run(h).live && h[i].Allocate? && Run(h).live[a] == h[i].block
    {
      LiveIsAllocatedNotFreed(h, a);
    }
  }
}
