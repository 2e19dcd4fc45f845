/** The sorted thread list of XLN/Core/Foundation/ThreadPool.h. */
module ThreadList {
  /** A thread by its unique number. */
  type ThreadId = nat

  ghost predicate Sorted(s: seq<ThreadId>) {
    forall i, j | 0 <= i < j < |s| :: s[i] < s[j]
  }

  ghost function Elements(s: seq<ThreadId>): set<ThreadId> {
    set x | x in s
  }

  class ThreadList {
    var threads: seq<ThreadId>

    ghost predicate Valid()
      reads this
    {
      Sorted(threads)
    }

    constructor ()
      ensures Valid() && threads == []
    {
      threads := [];
    }

    /** The first position whose number is not less than `id`. */
    method LowerBound(id: ThreadId) returns (n: nat)
      requires Valid()
      ensures n <= |threads|
      ensures forall i | 0 <= i < n :: threads[i] < id
      ensures forall i | n <= i < |threads| :: id <= threads[i]
    {
      n := 0;
      var count: nat := |threads|;
      while count > 0
        invariant n + count <= |threads|
        invariant forall i | 0 <= i < n :: threads[i] < id
        invariant forall i | n + count <= i < |threads| :: id <= threads[i]
      {
        var half := count / 2;
        if threads[n + half] < id {
          n := n + half + 1;
          count := count - half - 1;
        } else {
          count := half;
        }
      }
    }

    /** The first position whose number is greater than `id`. */
    method UpperBound(id: ThreadId) returns (n: nat)
      requires Valid()
      ensures n <= |threads|
      ensures forall i | 0 <= i < n :: threads[i] <= id
      ensures forall i | n <= i < |threads| :: id < threads[i]
    {
      n := 0;
      var count: nat := |threads|;
      while count > 0
        invariant n + count <= |threads|
        invariant forall i | 0 <= i < n :: threads[i] <= id
        invariant forall i | n + count <= i < |threads| :: id < threads[i]
      {
        var half := count / 2;
        if id < threads[n + half] {
          count := half;
        } else {
          n := n + half + 1;
          count := count - half - 1;
        }
      }
    }

    /** Adds a thread; numbers are never given twice. */
    method Add(id: ThreadId)
      requires Valid() && id !in threads
      modifies this
      ensures Valid() && Elements(threads) == Elements(old(threads)) + {id} && |threads| == |old(threads)| + 1
    {
      var n := LowerBound(id);
      AddedAt(threads, n, id);
      threads := threads[..n] + [id] + threads[n..];
    }

    /** Removes a thread; the checks on the way pass exactly when it is in the list. */
    method Remove(id: ThreadId) returns (checks: bool)
      requires Valid()
      modifies this
      ensures checks <==> id in old(threads)
      ensures Valid() && Elements(threads) == Elements(old(threads)) - {id}
      ensures checks ==> |threads| == |old(threads)| - 1
    {
      var first := LowerBound(id);
      var second := UpperBound(id);
      if id in threads {
        BoundsMeet(threads, first, second, id);
      }
      if first == |threads| || first + 1 != second {
        return false;
      }
      RemovedAt(threads, first);
      threads := threads[..first] + threads[first + 1..];
      return true;
    }
  }

  lemma AddedAt(s: seq<ThreadId>, n: nat, id: ThreadId)
    requires Sorted(s) && id !in s && n <= |s|
    requires forall i | 0 <= i < n :: s[i] < id
    requires forall i | n <= i < |s| :: id <= s[i]
    ensures Sorted(s[..n] + [id] + s[n..]) && Elements(s[..n] + [id] + s[n..]) == Elements(s) + {id}
  {
    assert forall i | n <= i < |s| :: s[i] in s;
    assert s == s[..n] + s[n..];
  }

  lemma RemovedAt(s: seq<ThreadId>, n: nat)
    requires Sorted(s) && n < |s|
    ensures Sorted(s[..n] + s[n + 1..]) && Elements(s[..n] + s[n + 1..]) == Elements(s) - {s[n]}
  {
    assert s == s[..n] + [s[n]] + s[n + 1..];
    assert s[n] !in s[..n] && s[n] !in s[n + 1..];
  }

  /** The bounds of a number in the list are one apart, around it. */
  lemma BoundsMeet(s: seq<ThreadId>, first: nat, second: nat, id: ThreadId)
    requires Sorted(s) && id in s && first <= |s| && second <= |s|
    requires forall i | 0 <= i < first :: s[i] < id
    requires forall i | first <= i < |s| :: id <= s[i]
    requires forall i | 0 <= i < second :: s[i] <= id
    requires forall i | second <= i < |s| :: id < s[i]
    ensures first < |s| && first + 1 == second
  {
    var i :| 0 <= i < |s| && s[i] == id;
    assert first <= i < second;
    assert s[first] == id && first == i;
    assert s[second - 1] == id && second - 1 == i;
  }
}
