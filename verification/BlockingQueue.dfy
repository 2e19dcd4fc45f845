/** TaskBarrierBlockingQueue of XLN/Core/Foundation/Task/TaskBarrierBlockingQueue.h: a queue under a mutex beside a
    semaphore. A taker looks at the queue before it waits, so it may take an item and leave that item's permit behind.
    Every critical section and every semaphore operation is one step, and the steps of all threads interleave freely. */
module BlockingQueue {
  type Thread = nat

  /** Where a thread is: outside; between its push and its post; about to look at the queue; waiting for the
      semaphore; about to look again after the semaphore let it through. */
  datatype Pc = Outside | Posting | Looking | Asleep | Woken

  /** `added` and `taken` record what went in and what came out, in order. */
  datatype State<T> = State(tasks: seq<T>, sem: nat, pcs: map<Thread, Pc>, added: seq<T>, taken: seq<T>)

  datatype Move<T> = Push(t: Thread, x: T) | Post(t: Thread) | BeginTake(t: Thread) | Look(t: Thread) | Wake(t: Thread)

  predicate Enabled<T(!new)>(s: State<T>, m: Move<T>) {
    m.t in s.pcs
    && match m
       case Push(t, _) => s.pcs[t].Outside?
       case Post(t) => s.pcs[t].Posting?
       case BeginTake(t) => s.pcs[t].Outside?
       case Look(t) => s.pcs[t].Looking? || s.pcs[t].Woken?
       case Wake(t) => s.pcs[t].Asleep? && s.sem > 0
  }

  function Next<T(!new)>(s: State<T>, m: Move<T>): State<T>
    requires Enabled(s, m)
  {
    match m
    case Push(t, x) => s.(tasks := s.tasks + [x], added := s.added + [x], pcs := s.pcs[t := Posting])
    case Post(t) => s.(sem := s.sem + 1, pcs := s.pcs[t := Outside])
    case BeginTake(t) => s.(pcs := s.pcs[t := Looking])
    case Look(t) =>
      if s.tasks != [] then s.(tasks := s.tasks[1..], taken := s.taken + [s.tasks[0]], pcs := s.pcs[t := Outside])
      else s.(pcs := s.pcs[t := Asleep])
    case Wake(t) => s.(sem := s.sem - 1, pcs := s.pcs[t := Woken])
  }

  /** The threads at one point. */
  ghost function At<T>(s: State<T>, pc: Pc): set<Thread> {
    set t | t in s.pcs && s.pcs[t] == pc
  }

  /** Every queued item has a permit: in the semaphore, about to be posted, or with a taker that is about to look. No
      permit is made without an item. */
  ghost predicate Permitted<T>(s: State<T>) {
    |s.tasks| <= s.sem + |At(s, Posting)| + |At(s, Woken)| <= |s.added|
  }

  /** Items come out in the order in which they went in, each once. */
  ghost predicate InOrder<T>(s: State<T>) {
    s.added == s.taken + s.tasks
  }

  ghost predicate Inv<T>(s: State<T>) {
    Permitted(s) && InOrder(s)
  }

  /** A thread goes from one point to another. */
  lemma Goes<T>(s: State<T>, s': State<T>, t: Thread, from: Pc, to: Pc)
    requires t in s.pcs && s.pcs[t] == from != to && s'.pcs == s.pcs[t := to]
    ensures forall pc :: |At(s', pc)| == |At(s, pc)| + (if pc == to then 1 else 0) - (if pc == from then 1 else 0)
  {
    forall pc
      ensures |At(s', pc)| == |At(s, pc)| + (if pc == to then 1 else 0) - (if pc == from then 1 else 0)
    {
      if pc == to {
        assert At(s', pc) == At(s, pc) + {t} && t !in At(s, pc);
      } else if pc == from {
        assert At(s', pc) == At(s, pc) - {t} && t in At(s, pc);
      } else {
        assert At(s', pc) == At(s, pc);
      }
    }
  }

  function Target<T(!new)>(s: State<T>, m: Move<T>): Pc {
    match m
    case Push(_, _) => Posting
    case Post(_) => Outside
    case BeginTake(_) => Looking
    case Look(_) => if s.tasks != [] then Outside else Asleep
    case Wake(_) => Woken
  }

  lemma NextKeeps<T(!new)>(s: State<T>, m: Move<T>)
    requires Inv(s) && Enabled(s, m)
    ensures Inv(Next(s, m))
  {
    Goes(s, Next(s, m), m.t, s.pcs[m.t], Target(s, m));
    if m.Look? && s.tasks != [] {
      assert s.tasks == [s.tasks[0]] + s.tasks[1..];
    }
  }

  // ---------- Runs ----------

  ghost predicate Initial<T>(s: State<T>) {
    s.tasks == [] && s.sem == 0 && s.added == [] && s.taken == [] && forall t | t in s.pcs :: s.pcs[t] == Outside
  }

  predicate Possible<T(!new)>(s: State<T>, ms: seq<Move<T>>)
    decreases |ms|, 0
  {
    ms == [] || (Possible(s, ms[..|ms| - 1]) && Enabled(After(s, ms[..|ms| - 1]), ms[|ms| - 1]))
  }

  function After<T(!new)>(s: State<T>, ms: seq<Move<T>>): State<T>
    requires Possible(s, ms)
    decreases |ms|, 1
  {
    if ms == [] then s else Next(After(s, ms[..|ms| - 1]), ms[|ms| - 1])
  }

  lemma {:induction false} AlwaysInv<T(!new)>(s: State<T>, ms: seq<Move<T>>)
    requires Inv(s) && Possible(s, ms)
    ensures Inv(After(s, ms))
  {
    if ms != [] {
      AlwaysInv(s, ms[..|ms| - 1]);
      NextKeeps(After(s, ms[..|ms| - 1]), ms[|ms| - 1]);
    }
  }

  /** In every interleaving: no wake-up is lost and nothing overtakes. A queue that is not empty while every taker
      sleeps and no post is pending has a permit, so that a sleeping taker can go on. */
  lemma NoLostWakeUp<T(!new)>(s0: State<T>, ms: seq<Move<T>>)
    requires Initial(s0) && Possible(s0, ms)
    ensures var s := After(s0, ms);
            && s.added == s.taken + s.tasks
            && |s.tasks| <= s.sem + |At(s, Posting)| + |At(s, Woken)| <= |s.added|
            && (s.tasks != [] && At(s, Posting) == {} && At(s, Woken) == {} ==>
                  s.sem > 0 && forall t | t in At(s, Asleep) :: Enabled(s, Wake(t)))
  {
    AlwaysInv(s0, ms);
  }

  // ---------- Progress ----------

  /** A step of a call already begun. */
  predicate Advances<T(!new)>(s: State<T>, m: Move<T>) {
    Enabled(s, m) && !m.Push? && !m.BeginTake?
  }

  ghost function Measure<T>(s: State<T>): nat {
    3 * |At(s, Posting)| + 2 * s.sem + |At(s, Looking)| + |At(s, Woken)|
  }

  lemma AdvanceMeasure<T(!new)>(s: State<T>, m: Move<T>)
    requires Advances(s, m)
    ensures Measure(Next(s, m)) < Measure(s)
  {
    Goes(s, Next(s, m), m.t, s.pcs[m.t], Target(s, m));
  }

  lemma {:induction false} CallsSettle<T(!new)>(s: State<T>, ms: seq<Move<T>>)
    requires Possible(s, ms) && forall i | 0 <= i < |ms| :: !ms[i].Push? && !ms[i].BeginTake?
    ensures |ms| + Measure(After(s, ms)) <= Measure(s)
  {
    hide Measure, Next, Enabled;
    if ms != [] {
      var past := ms[..|ms| - 1];
      assert forall i | 0 <= i < |past| :: past[i] == ms[i];
      CallsSettle(s, past);
      AdvanceMeasure(After(s, past), ms[|ms| - 1]);
    }
  }

  /** With no new calls, the ones begun come to rest in boundedly many steps; then no call to Add is pending, and a
      call to Take is only while the queue is empty. */
  lemma TakersAreServed<T(!new)>(s: State<T>, ms: seq<Move<T>>)
    requires Inv(s) && Possible(s, ms) && forall i | 0 <= i < |ms| :: !ms[i].Push? && !ms[i].BeginTake?
    ensures |ms| <= Measure(s)
    ensures var s' := After(s, ms);
            (forall m :: !Advances(s', m)) ==>
              forall t | t in s'.pcs :: s'.pcs[t].Outside? || (s'.pcs[t].Asleep? && s'.tasks == [])
  {
    CallsSettle(s, ms);
    AlwaysInv(s, ms);
    var s' := After(s, ms);
    if forall m :: !Advances(s', m) {
      forall t | t in s'.pcs
        ensures s'.pcs[t].Outside? || (s'.pcs[t].Asleep? && s'.tasks == [])
      {
        assert !Advances(s', Post(t)) && !Advances(s', Look(t)) && !Advances(s', Wake(t));
        if t2 :| t2 in At(s', Posting) {
          assert Advances(s', Post(t2));
        }
        if t2 :| t2 in At(s', Woken) {
          assert Advances(s', Look(t2));
        }
        assert At(s', Posting) == {} && At(s', Woken) == {};
      }
    }
  }
}
