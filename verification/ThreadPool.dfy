/** Growing, shrinking and stopping a thread pool: ThreadPool.cpp, ThreadPoolExecutor.cpp and
    CPUThreadPoolExecutor.cpp over a first-in first-out task queue. Workers, posters and the thread that changes the
    pool interleave freely. */
module ThreadPool {
  import opened Sequences

  type ThreadId = nat

  /** A task to run, or one made to stop a worker. */
  datatype Item = Work(id: nat) | Poison

  /** A worker is about to take a task; runs the task that was taken `i`-th; has left its loop; has put itself on the
      list of stopped threads; has ended. */
  datatype Worker = Idle | Running(i: nat) | Quitting | Ending | Ended

  /** The thread that changes the pool: outside; adding threads; posting poison for `left` more workers before joining
      `k`; joining `left` more threads; waiting for thread `t` to end. */
  datatype Control =
    | Outside
    | Adding(left: nat)
    | Poisoning(left: nat, k: nat)
    | Joining(left: nat)
    | Awaiting(t: ThreadId, left: nat)

  /** `posted` and `taken` record what went into the task queue and came out, `done` which of the items taken have
      run, `joined` the threads joined; `count` is the executor's own number of threads. */
  datatype State = State(
    queue: seq<Item>, workers: map<ThreadId, Worker>, stopped: seq<ThreadId>, threads: set<ThreadId>, count: nat,
    control: Control, nextId: ThreadId, posted: seq<Item>, taken: seq<Item>, done: multiset<nat>, joined: seq<ThreadId>)

  datatype Move =
    | Post(id: nat)
    | Take(t: ThreadId) | Finish(t: ThreadId) | Announce(t: ThreadId) | End(t: ThreadId)
    | SetMaxThread(n: nat) | StopAllThread
    | AddThread | PostPoison | StartJoin | TakeStopped | Join | Return

  predicate Enabled(s: State, m: Move) {
    match m
    case Post(_) => true
    case Take(t) => t in s.workers && s.workers[t].Idle? && s.queue != []
    case Finish(t) => t in s.workers && s.workers[t].Running?
    case Announce(t) => t in s.workers && s.workers[t].Quitting?
    case End(t) => t in s.workers && s.workers[t].Ending?
    case SetMaxThread(n) => s.control.Outside?
    case StopAllThread => s.control.Outside?
    case AddThread => s.control.Adding? && s.control.left > 0
    case PostPoison => s.control.Poisoning? && s.control.left > 0
    case StartJoin => s.control.Poisoning? && s.control.left == 0
    case TakeStopped => s.control.Joining? && s.control.left > 0 && s.stopped != []
    case Join => s.control.Awaiting? && s.control.left > 0 && s.control.t in s.workers && s.workers[s.control.t].Ended?
    case Return => (s.control.Joining? || s.control.Adding?) && s.control.left == 0
  }

  /** `RemoveThread(k)` poisons no more workers than there are, then `JoinStoppedThread(k)` joins `k`. */
  function Removing(s: State, k: nat): Control {
    Poisoning(if |s.threads| < k then |s.threads| else k, k)
  }

  function Next(s: State, m: Move): State
    requires Enabled(s, m)
  {
    match m
    case Post(id) => s.(queue := s.queue + [Work(id)], posted := s.posted + [Work(id)])
    case Take(t) =>
      var item := s.queue[0];
      s.(queue := s.queue[1..], taken := s.taken + [item],
      workers := s.workers[t := if item.Poison? then Quitting else Running(|s.taken|)])
    case Finish(t) => s.(done := s.done + multiset{s.workers[t].i}, workers := s.workers[t := Idle])
    case Announce(t) => s.(stopped := s.stopped + [t], workers := s.workers[t := Ending])
    case End(t) => s.(workers := s.workers[t := Ended])
    case SetMaxThread(n) =>
      if n < s.count then s.(control := Removing(s, s.count - n))
      else if s.count < n then s.(control := Adding(n - s.count))
      else s
    case StopAllThread => s.(control := Removing(s, s.count))
    case AddThread =>
      s.(workers := s.workers[s.nextId := Idle], threads := s.threads + {s.nextId}, nextId := s.nextId + 1,
      control := Adding(s.control.left - 1))
    case PostPoison =>
      s.(queue := s.queue + [Poison], posted := s.posted + [Poison],
      control := Poisoning(s.control.left - 1, s.control.k))
    case StartJoin => s.(control := Joining(s.control.k))
    case TakeStopped => s.(stopped := s.stopped[1..], control := Awaiting(s.stopped[0], s.control.left))
    case Join =>
      s.(joined := s.joined + [s.control.t], threads := s.threads - {s.control.t},
      control := Joining(s.control.left - 1))
    case Return => s.(count := |s.threads|, control := Outside)
  }

  // ---------- What every step keeps ----------

  ghost function Poisons(items: seq<Item>): nat {
    multiset(items)[Poison]
  }

  /** The workers that a poison has stopped. */
  ghost function Quit(workers: map<ThreadId, Worker>): set<ThreadId> {
    set t | t in workers && (workers[t].Quitting? || workers[t].Ending? || workers[t].Ended?)
  }

  /** The stopped threads that are still to be joined. */
  ghost function Announced(s: State): seq<ThreadId> {
    (if s.control.Awaiting? then [s.control.t] else []) + s.stopped
  }

  /** How many threads are still to be joined for poison that was posted or is going to be. */
  ghost function Owed(c: Control): nat {
    match c
    case Outside => 0
    case Adding(_) => 0
    case Poisoning(_, k) => k
    case Joining(left) => left
    case Awaiting(_, left) => left
  }

  /** Items leave the queue in order; each poison stops one worker. */
  ghost predicate Counted(posted: seq<Item>, taken: seq<Item>, queue: seq<Item>, workers: map<ThreadId, Worker>) {
    posted == taken + queue && Poisons(taken) == |Quit(workers)|
  }

  ghost predicate IsRunning(workers: map<ThreadId, Worker>, i: nat) {
    exists t :: t in workers && workers[t] == Running(i)
  }

  /** Every task taken has run once or is being run by one worker. */
  ghost predicate RunsOnce(taken: seq<Item>, done: multiset<nat>, workers: map<ThreadId, Worker>) {
    && (forall i: nat :: (i in done || IsRunning(workers, i)) <==> (i < |taken| && taken[i].Work?))
    && (forall i :: done[i] <= 1)
    && (forall i | i in done :: !IsRunning(workers, i))
    && (forall t, u | t in workers && u in workers && t != u && workers[t].Running? && workers[u].Running? ::
          workers[t].i != workers[u].i)
  }

  ghost predicate HasStopped(workers: map<ThreadId, Worker>, t: ThreadId) {
    t in workers && (workers[t].Ending? || workers[t].Ended?)
  }

  /** The threads are the workers not joined yet; those that have stopped are the joined and the announced ones. */
  ghost predicate Listed(workers: map<ThreadId, Worker>, gone: seq<ThreadId>, joined: seq<ThreadId>,
                         threads: set<ThreadId>) {
    && Distinct(gone)
    && (forall t :: t in gone <==> HasStopped(workers, t))
    && (forall t | t in joined :: t in workers && workers[t].Ended?)
    && (forall t :: t in threads <==> t in workers && t !in joined)
  }

  /** Poison is posted for exactly the threads that are going to be joined, and there are as many. */
  ghost predicate Balanced(c: Control, posted: seq<Item>, joined: nat, threads: nat, count: nat) {
    && Owed(c) <= threads
    && (c.Poisoning? ==> c.left <= c.k)
    && (c.Awaiting? ==> c.left > 0)
    && Poisons(posted) + (if c.Poisoning? then c.left else 0) == joined + Owed(c)
    && (c.Outside? ==> count == threads)
  }

  ghost predicate Inv(s: State) {
    && Counted(s.posted, s.taken, s.queue, s.workers)
    && RunsOnce(s.taken, s.done, s.workers)
    && Listed(s.workers, s.joined + Announced(s), s.joined, s.threads)
    && Balanced(s.control, s.posted, |s.joined|, |s.threads|, s.count)
    && forall t | t in s.workers :: t < s.nextId
  }

  lemma AppendPoisons(a: seq<Item>, item: Item)
    ensures Poisons(a + [item]) == Poisons(a) + if item.Poison? then 1 else 0
  {
  }

  // ---------- Workers ----------

  lemma QuitKept(workers: map<ThreadId, Worker>, t: ThreadId, w: Worker)
    requires t in Quit(workers) <==> !w.Idle? && !w.Running?
    ensures Quit(workers[t := w]) == Quit(workers)
  {
  }

  lemma TakeCounted(posted: seq<Item>, taken: seq<Item>, queue: seq<Item>, workers: map<ThreadId, Worker>,
                    t: ThreadId, w: Worker)
    requires Counted(posted, taken, queue, workers) && queue != [] && t in workers && workers[t].Idle?
    requires if queue[0].Poison? then w.Quitting? else w.Running?
    ensures Counted(posted, taken + [queue[0]], queue[1..], workers[t := w])
  {
    hide Poisons;
    assert queue == [queue[0]] + queue[1..];
    AppendPoisons(taken, queue[0]);
    if queue[0].Poison? {
      assert Quit(workers[t := w]) == Quit(workers) + {t};
    } else {
      QuitKept(workers, t, w);
    }
  }

  lemma RunningKept(workers: map<ThreadId, Worker>, t: ThreadId, w: Worker)
    requires t in workers ==> !workers[t].Running?
    ensures forall i :: IsRunning(workers[t := w], i) <==> IsRunning(workers, i) || w == Running(i)
  {
    var workers' := workers[t := w];
    forall i
      ensures IsRunning(workers', i) <==> IsRunning(workers, i) || w == Running(i)
    {
      if IsRunning(workers, i) {
        var u :| u in workers && workers[u] == Running(i);
        assert workers'[u] == Running(i);
      }
      if w == Running(i) {
        assert workers'[t] == Running(i);
      }
    }
  }

  lemma TakeRunsOnce(taken: seq<Item>, done: multiset<nat>, workers: map<ThreadId, Worker>, t: ThreadId, item: Item)
    requires RunsOnce(taken, done, workers) && t in workers && workers[t].Idle?
    ensures RunsOnce(taken + [item], done, workers[t := if item.Poison? then Quitting else Running(|taken|)])
  {
    var w := if item.Poison? then Quitting else Running(|taken|);
    RunningKept(workers, t, w);
    assert forall u | u in workers && workers[u].Running? :: IsRunning(workers, workers[u].i);
    hide IsRunning;
  }

  lemma FinishRunsOnce(taken: seq<Item>, done: multiset<nat>, workers: map<ThreadId, Worker>, t: ThreadId, i: nat)
    requires RunsOnce(taken, done, workers) && t in workers && workers[t] == Running(i)
    ensures RunsOnce(taken, done + multiset{i}, workers[t := Idle])
  {
    assert IsRunning(workers, i);
    var workers' := workers[t := Idle];
    forall k
      ensures IsRunning(workers', k) <==> IsRunning(workers, k) && k != i
    {
      if IsRunning(workers, k) && k != i {
        var u :| u in workers && workers[u] == Running(k);
        assert workers'[u] == Running(k);
      }
    }
    hide IsRunning;
  }

  lemma QuietRunsOnce(taken: seq<Item>, done: multiset<nat>, workers: map<ThreadId, Worker>, t: ThreadId, w: Worker)
    requires RunsOnce(taken, done, workers) && (t in workers ==> !workers[t].Running?) && !w.Running?
    ensures RunsOnce(taken, done, workers[t := w])
  {
    RunningKept(workers, t, w);
    hide IsRunning;
  }

  // ---------- The list of threads ----------

  lemma WorkerListed(workers: map<ThreadId, Worker>, gone: seq<ThreadId>, joined: seq<ThreadId>,
                     threads: set<ThreadId>, t: ThreadId, w: Worker)
    requires Listed(workers, gone, joined, threads) && t in workers
             && (w.Ended? || w.Ending? <==> HasStopped(workers, t))
    requires workers[t].Ended? ==> w.Ended?
    ensures Listed(workers[t := w], gone, joined, threads)
  {
    forall u
      ensures HasStopped(workers[t := w], u) == HasStopped(workers, u)
    {
    }
    hide HasStopped, Distinct;
  }

  lemma AnnounceListed(workers: map<ThreadId, Worker>, gone: seq<ThreadId>, joined: seq<ThreadId>,
                       threads: set<ThreadId>, t: ThreadId)
    requires Listed(workers, gone, joined, threads) && t in workers && workers[t].Quitting?
    ensures Listed(workers[t := Ending], gone + [t], joined, threads)
  {
    forall u
      ensures HasStopped(workers[t := Ending], u) == (HasStopped(workers, u) || u == t)
    {
    }
    assert !HasStopped(workers, t) && t !in gone;
    hide HasStopped;
  }

  lemma AddListed(workers: map<ThreadId, Worker>, gone: seq<ThreadId>, joined: seq<ThreadId>, threads: set<ThreadId>,
                  t: ThreadId)
    requires Listed(workers, gone, joined, threads) && t !in workers
    ensures Listed(workers[t := Idle], gone, joined, threads + {t})
  {
    forall u
      ensures HasStopped(workers[t := Idle], u) == HasStopped(workers, u)
    {
    }
    hide HasStopped, Distinct;
  }

  lemma JoinListed(workers: map<ThreadId, Worker>, gone: seq<ThreadId>, joined: seq<ThreadId>,
                   threads: set<ThreadId>, t: ThreadId)
    requires Listed(workers, gone, joined, threads) && t in workers && workers[t].Ended? && t !in joined
    ensures Listed(workers, gone, joined + [t], threads - {t}) && t in threads
  {
    hide HasStopped, Distinct;
  }

  // ---------- Steps ----------

  lemma WorkerStepKeeps(s: State, m: Move)
    requires Inv(s) && Enabled(s, m) && (m.Take? || m.Finish? || m.Announce? || m.End?)
    ensures Inv(Next(s, m))
  {
    hide Counted, RunsOnce, Listed, Balanced;
    var s' := Next(s, m);
    match m
    case Take(t) =>
      var w := if s.queue[0].Poison? then Quitting else Running(|s.taken|);
      TakeCounted(s.posted, s.taken, s.queue, s.workers, t, w);
      TakeRunsOnce(s.taken, s.done, s.workers, t, s.queue[0]);
      WorkerListed(s.workers, s.joined + Announced(s), s.joined, s.threads, t, w);
    case Finish(t) =>
      SameCounted(s.posted, s.taken, s.queue, s.workers, t, Idle);
      FinishRunsOnce(s.taken, s.done, s.workers, t, s.workers[t].i);
      WorkerListed(s.workers, s.joined + Announced(s), s.joined, s.threads, t, Idle);
    case Announce(t) =>
      SameCounted(s.posted, s.taken, s.queue, s.workers, t, Ending);
      QuietRunsOnce(s.taken, s.done, s.workers, t, Ending);
      AnnounceListed(s.workers, s.joined + Announced(s), s.joined, s.threads, t);
      assert s'.joined + Announced(s') == s.joined + Announced(s) + [t];
    case End(t) =>
      SameCounted(s.posted, s.taken, s.queue, s.workers, t, Ended);
      QuietRunsOnce(s.taken, s.done, s.workers, t, Ended);
      WorkerListed(s.workers, s.joined + Announced(s), s.joined, s.threads, t, Ended);
  }

  lemma SameCounted(posted: seq<Item>, taken: seq<Item>, queue: seq<Item>, workers: map<ThreadId, Worker>,
                    t: ThreadId, w: Worker)
    requires Counted(posted, taken, queue, workers)
    requires t in Quit(workers) <==> !w.Idle? && !w.Running?
    ensures Counted(posted, taken, queue, workers[t := w])
  {
    hide Poisons;
    QuitKept(workers, t, w);
  }

  lemma PostCounted(posted: seq<Item>, taken: seq<Item>, queue: seq<Item>, workers: map<ThreadId, Worker>, item: Item)
    requires Counted(posted, taken, queue, workers)
    ensures Counted(posted + [item], taken, queue + [item], workers)
  {
  }

  lemma PosterStepKeeps(s: State, m: Move)
    requires Inv(s) && Enabled(s, m) && (m.Post? || m.PostPoison?)
    ensures Inv(Next(s, m))
  {
    hide Counted, RunsOnce, Listed, Poisons;
    var item := if m.Post? then Work(m.id) else Poison;
    PostCounted(s.posted, s.taken, s.queue, s.workers, item);
    AppendPoisons(s.posted, item);
  }

  lemma ControlStepKeeps(s: State, m: Move)
    requires Inv(s) && Enabled(s, m) && (m.SetMaxThread? || m.StopAllThread? || m.StartJoin? || m.Return?)
    ensures Inv(Next(s, m))
  {
    hide Counted, RunsOnce, Listed, Poisons;
  }

  lemma AddThreadKeeps(s: State)
    requires Inv(s) && Enabled(s, AddThread)
    ensures Inv(Next(s, AddThread))
  {
    hide Counted, RunsOnce, Listed, Poisons;
    SameCounted(s.posted, s.taken, s.queue, s.workers, s.nextId, Idle);
    QuietRunsOnce(s.taken, s.done, s.workers, s.nextId, Idle);
    AddListed(s.workers, s.joined + Announced(s), s.joined, s.threads, s.nextId);
  }

  lemma JoinKeeps(s: State, m: Move)
    requires Inv(s) && Enabled(s, m) && (m.TakeStopped? || m.Join?)
    ensures Inv(Next(s, m))
  {
    hide Counted, RunsOnce, Listed, Poisons;
    var s' := Next(s, m);
    assert s'.joined + Announced(s') == s.joined + Announced(s);
    if m.Join? {
      AwaitedNotJoined(s.joined, s.control.t, s.stopped) by {
        assert s.joined + Announced(s) == s.joined + [s.control.t] + s.stopped;
        ListedDistinct(s.workers, s.joined + Announced(s), s.joined, s.threads);
      }
      JoinListed(s.workers, s.joined + Announced(s), s.joined, s.threads, s.control.t);
    }
  }

  lemma ListedDistinct(workers: map<ThreadId, Worker>, gone: seq<ThreadId>, joined: seq<ThreadId>,
                       threads: set<ThreadId>)
    requires Listed(workers, gone, joined, threads)
    ensures Distinct(gone)
  {
  }

  lemma AwaitedNotJoined(joined: seq<ThreadId>, t: ThreadId, stopped: seq<ThreadId>)
    requires Distinct(joined + [t] + stopped)
    ensures t !in joined
  {
    var all := joined + [t] + stopped;
    assert all[|joined|] == t;
    assert forall i | 0 <= i < |joined| :: all[i] == joined[i];
  }

  lemma NextKeeps(s: State, m: Move)
    requires Inv(s) && Enabled(s, m)
    ensures Inv(Next(s, m))
  {
    hide Inv, Next, Enabled;
    if m.Take? || m.Finish? || m.Announce? || m.End? {
      WorkerStepKeeps(s, m);
    } else if m.Post? || m.PostPoison? {
      PosterStepKeeps(s, m);
    } else if m.AddThread? {
      AddThreadKeeps(s);
    } else if m.TakeStopped? || m.Join? {
      JoinKeeps(s, m);
    } else {
      ControlStepKeeps(s, m);
    }
  }

  // ---------- Runs ----------

  ghost predicate Initial(s: State) {
    s == State([], map[], [], {}, 0, Outside, 0, [], [], multiset{}, [])
  }

  lemma InitialInv(s: State)
    requires Initial(s)
    ensures Inv(s)
  {
    assert Quit(s.workers) == {};
  }

  predicate Possible(s: State, ms: seq<Move>)
    decreases |ms|, 0
  {
    ms == [] || (Possible(s, ms[..|ms| - 1]) && Enabled(After(s, ms[..|ms| - 1]), ms[|ms| - 1]))
  }

  function After(s: State, ms: seq<Move>): State
    requires Possible(s, ms)
    decreases |ms|, 1
  {
    if ms == [] then s else Next(After(s, ms[..|ms| - 1]), ms[|ms| - 1])
  }

  lemma {:induction false} AlwaysInv(s: State, ms: seq<Move>)
    requires Inv(s) && Possible(s, ms)
    ensures Inv(After(s, ms))
  {
    hide Inv, Next, Enabled;
    if ms != [] {
      AlwaysInv(s, ms[..|ms| - 1]);
      NextKeeps(After(s, ms[..|ms| - 1]), ms[|ms| - 1]);
    }
  }

  lemma PoisonTaken(taken: seq<Item>, queue: seq<Item>, j: nat)
    requires Poisons(queue) == 0 && j < |taken + queue| && (taken + queue)[j].Poison?
    ensures j < |taken|
  {
    assert forall k | 0 <= k < |queue| :: queue[k] in multiset(queue);
  }

  /** While no one changes the pool no poison is about: exactly the workers that were joined have stopped, and the
      others are all alive. */
  lemma OutsideIsClean(s: State)
    requires Inv(s) && s.control.Outside?
    ensures Poisons(s.queue) == 0
    ensures forall t | t in s.workers :: if t in s.threads then s.workers[t].Idle? || s.workers[t].Running?
                                         else s.workers[t].Ended?
    ensures s.stopped == [] && s.count == |s.threads|
  {
    assert s.joined + Announced(s) == s.joined + s.stopped;
    assert Poisons(s.taken) + Poisons(s.queue) == Poisons(s.posted) == |s.joined|;
    var gone := s.joined + s.stopped;
    var ended := set t | t in s.workers && HasStopped(s.workers, t);
    DistinctSize(gone, ended);
    assert ended <= Quit(s.workers);
    Smaller(ended, Quit(s.workers));
    assert |gone| == |s.joined| + |s.stopped|;
    hide Counted, RunsOnce, Balanced;
    assert ended == Quit(s.workers) && s.stopped == [] && gone == s.joined;
    forall t | t in s.threads
      ensures t !in Quit(s.workers)
    {
      assert t !in gone && !HasStopped(s.workers, t);
    }
  }

  /** A task posted before some poison has run, once, by the time no poison is left and no worker is running. */
  lemma PostedBeforePoisonHasRun(s: State, i: nat, j: nat)
    requires Inv(s) && Poisons(s.queue) == 0 && i < j < |s.posted| && s.posted[i].Work? && s.posted[j].Poison?
    requires forall t | t in s.workers :: !s.workers[t].Running?
    ensures i < |s.taken| && s.taken[i] == s.posted[i] && s.done[i] == 1
  {
    PoisonTaken(s.taken, s.queue, j);
    assert s.taken[i] == s.posted[i];
    assert !IsRunning(s.workers, i);
    assert i in s.done;
  }

  // ---------- What growing, shrinking and stopping come to ----------

  /** On the way to `goal` threads. */
  ghost predicate Toward(s: State, goal: nat) {
    match s.control
    case Outside => |s.threads| == goal
    case Adding(left) => |s.threads| + left == goal
    case _ => |s.threads| == goal + Owed(s.control)
  }

  lemma TowardStep(s: State, m: Move, goal: nat)
    requires Inv(s) && Enabled(s, m) && Toward(s, goal)
    requires s.control.Outside? ==> !m.SetMaxThread? && !m.StopAllThread?
    ensures Toward(Next(s, m), goal)
  {
    hide Inv, Counted, RunsOnce, Listed, Balanced, Poisons;
    if m.Join? {
      AwaitedIsListed(s);
      Resized(s.threads, Next(s, m).threads, s.control.t);
    } else if m.AddThread? {
      NextIdIsNew(s);
      Resized(s.threads, Next(s, m).threads, s.nextId);
    }
  }

  lemma AwaitedIsListed(s: State)
    requires Inv(s) && s.control.Awaiting?
    ensures s.control.t in s.threads && s.control.t in s.workers && HasStopped(s.workers, s.control.t)
  {
    hide Counted, RunsOnce, Balanced;
    var t := s.control.t;
    assert s.joined + Announced(s) == s.joined + [t] + s.stopped;
    AwaitedNotJoined(s.joined, t, s.stopped);
    assert t in s.joined + [t] + s.stopped;
  }

  lemma NextIdIsNew(s: State)
    requires Inv(s)
    ensures s.nextId !in s.threads
  {
    hide Counted, RunsOnce, Balanced;
  }

  lemma CallStep(s: State, m: Move, goal: nat)
    requires Inv(s) && Enabled(s, m) && (m == SetMaxThread(goal) || (m == StopAllThread && goal == 0))
    ensures Toward(Next(s, m), goal)
  {
    hide Counted, RunsOnce, Listed;
  }

  /** `SetMaxThread(n)` leaves `n` threads and `StopAllThread` none, whatever is posted meanwhile. */
  lemma {:induction false} CallMeetsGoal(s: State, ms: seq<Move>, goal: nat)
    requires Inv(s) && Possible(s, ms) && ms != [] && s.control.Outside?
    requires ms[0] == SetMaxThread(goal) || (ms[0] == StopAllThread && goal == 0)
    requires forall i | 0 < i < |ms| :: !ms[i].SetMaxThread? && !ms[i].StopAllThread?
    ensures Toward(After(s, ms), goal)
  {
    hide Inv, Next, Enabled, Toward;
    var past := ms[..|ms| - 1];
    AlwaysInv(s, past);
    if past == [] {
      CallStep(s, ms[0], goal);
    } else {
      assert past[0] == ms[0] && forall i | 0 < i < |past| :: past[i] == ms[i];
      CallMeetsGoal(s, past, goal);
      TowardStep(After(s, past), ms[|ms| - 1], goal);
    }
  }

  /** When `StopAllThread` has returned: every worker ever made has ended and was joined exactly once, the list is
      empty, no poison is left, and every task posted before some poison has run exactly once. */
  lemma StopAllThreadStops(s0: State, ms: seq<Move>)
    requires Inv(s0) && Possible(s0, ms) && ms != [] && s0.control.Outside? && ms[0] == StopAllThread
    requires forall i | 0 < i < |ms| :: !ms[i].SetMaxThread? && !ms[i].StopAllThread?
    requires After(s0, ms).control.Outside?
    ensures var s := After(s0, ms);
            && s.threads == {} && s.count == 0 && s.stopped == [] && Poisons(s.queue) == 0
            && (forall t | t in s.workers :: s.workers[t].Ended? && multiset(s.joined)[t] == 1)
            && forall i, j | 0 <= i < j < |s.posted| && s.posted[i].Work? && s.posted[j].Poison? ::
                 i < |s.taken| && s.taken[i] == s.posted[i] && s.done[i] == 1
  {
    hide Next, Enabled, Poisons;
    CallMeetsGoal(s0, ms, 0);
    AlwaysInv(s0, ms);
    var s := After(s0, ms);
    OutsideIsClean(s);
    AllJoined(s);
    forall i, j | 0 <= i < j < |s.posted| && s.posted[i].Work? && s.posted[j].Poison?
      ensures i < |s.taken| && s.taken[i] == s.posted[i] && s.done[i] == 1
    {
      PostedBeforePoisonHasRun(s, i, j);
    }
  }

  lemma AllJoined(s: State)
    requires Inv(s) && s.threads == {} && s.stopped == [] && s.control.Outside?
    ensures forall t | t in s.workers :: multiset(s.joined)[t] == 1
  {
    hide Counted, RunsOnce, Balanced;
    assert s.joined + Announced(s) == s.joined;
    forall t | t in s.workers
      ensures multiset(s.joined)[t] == 1
    {
      assert t !in s.threads;
      OnceIn(s.joined, t);
    }
  }

  // ---------- The joining thread is never stuck ----------

  /** A step that is not a new post or a new call. */
  predicate Advances(s: State, m: Move) {
    Enabled(s, m) && !m.Post? && !m.SetMaxThread? && !m.StopAllThread?
  }

  /** A worker that has not ended can go on, unless it waits for a task. */
  lemma WorkerAdvances(s: State, t: ThreadId) returns (m: Move)
    requires t in s.workers && !s.workers[t].Ended? && (s.workers[t].Idle? ==> s.queue != [])
    ensures Advances(s, m)
  {
    match s.workers[t]
    case Idle => return Take(t);
    case Running(_) => return Finish(t);
    case Quitting => return Announce(t);
    case Ending => return End(t);
  }

  /** Between the call and its return some step can always be made, if tasks return. */
  lemma NeverStuck(s: State) returns (m: Move)
    requires Inv(s) && !s.control.Outside?
    ensures Advances(s, m)
  {
    match s.control
    case Adding(left) => return if left > 0 then AddThread else Return;
    case Poisoning(left, _) => return if left > 0 then PostPoison else StartJoin;
    case Awaiting(t, _) =>
      AwaitedIsListed(s);
      if s.workers[t].Ended? {
        return Join;
      }
      m := WorkerAdvances(s, t);
    case Joining(left) =>
      if left == 0 {
        return Return;
      }
      if s.stopped != [] {
        return TakeStopped;
      }
      var t := SomeoneIsLeft(s);
      m := WorkerAdvances(s, t);
  }

  /** While a thread is still to be joined and none is announced, a thread of the list has not ended, and a poison
      waits for it if it is idle. */
  lemma SomeoneIsLeft(s: State) returns (t: ThreadId)
    requires Inv(s) && s.control.Joining? && s.control.left > 0 && s.stopped == []
    ensures t in s.workers && !s.workers[t].Ended? && (s.workers[t].Idle? ==> s.queue != [])
  {
    assert s.joined + Announced(s) == s.joined;
    NoneEnded(s);
    if Quit(s.workers) <= (set u | u in s.joined) {
      QuitAreJoined(s);
      t :| t in s.threads;
    } else {
      t :| t in Quit(s.workers) && t !in s.joined;
    }
  }

  lemma NoneEnded(s: State)
    requires Inv(s) && s.joined + Announced(s) == s.joined
    ensures forall t | t in s.threads :: t in s.workers && !HasStopped(s.workers, t)
    ensures forall t | t in Quit(s.workers) && t !in s.joined :: !s.workers[t].Ended?
  {
    hide Counted, RunsOnce, Balanced;
  }

  lemma QuitAreJoined(s: State)
    requires Inv(s) && s.control.Joining? && s.control.left > 0 && s.stopped == []
    requires Quit(s.workers) <= (set u | u in s.joined)
    ensures s.threads != {} && s.queue != []
  {
    hide RunsOnce, Listed;
    var js := set u | u in s.joined;
    JoinedSize(s, js);
    Smaller(Quit(s.workers), js);
    AppendAll(s.taken, s.queue);
    assert Poisons(s.queue) > 0;
  }

  lemma AppendAll(a: seq<Item>, b: seq<Item>)
    ensures Poisons(a + b) == Poisons(a) + Poisons(b) && (b == [] ==> Poisons(b) == 0)
  {
  }

  lemma JoinedSize(s: State, js: set<ThreadId>)
    requires Inv(s) && js == set u | u in s.joined
    ensures |js| == |s.joined|
  {
    hide Counted, RunsOnce, Balanced;
    var gone := s.joined + Announced(s);
    assert forall i | 0 <= i < |s.joined| :: gone[i] == s.joined[i];
    DistinctSize(s.joined, js);
  }

  // ---------- The call returns ----------

  ghost function Runners(workers: map<ThreadId, Worker>): set<ThreadId> {
    set t | t in workers && workers[t].Running?
  }

  ghost function Leaving(workers: map<ThreadId, Worker>): set<ThreadId> {
    set t | t in workers && (workers[t].Quitting? || workers[t].Ending?)
  }

  ghost function Quitters(workers: map<ThreadId, Worker>): set<ThreadId> {
    set t | t in workers && workers[t].Quitting?
  }

  ghost function WorkerSteps(workers: map<ThreadId, Worker>): nat {
    |Runners(workers)| + |Leaving(workers)| + |Quitters(workers)|
  }

  function ControlSteps(c: Control): nat {
    match c
    case Outside => 0
    case Adding(left) => left + 1
    case Poisoning(left, k) => 4 * left + 2 * k + 2
    case Joining(left) => 2 * left + 1
    case Awaiting(_, left) => 2 * left
  }

  /** A bound on the steps still to be made, if nothing more is posted. */
  ghost function Measure(s: State): nat {
    2 * |s.queue| + Poisons(s.queue) + WorkerSteps(s.workers) + ControlSteps(s.control)
  }

  function Steps(w: Worker): nat {
    match w
    case Idle => 0
    case Running(_) => 1
    case Quitting => 2
    case Ending => 1
    case Ended => 0
  }

  lemma WorkerGoes(workers: map<ThreadId, Worker>, t: ThreadId, w: Worker)
    ensures WorkerSteps(workers[t := w]) ==
            WorkerSteps(workers) - (if t in workers then Steps(workers[t]) else 0) + Steps(w)
  {
    var workers' := workers[t := w];
    Resized(Runners(workers), Runners(workers'), t);
    Resized(Leaving(workers), Leaving(workers'), t);
    Resized(Quitters(workers), Quitters(workers'), t);
  }

  lemma FrontPoison(queue: seq<Item>)
    requires queue != []
    ensures Poisons(queue) == Poisons(queue[1..]) + if queue[0].Poison? then 1 else 0
  {
    assert queue == [queue[0]] + queue[1..];
  }

  lemma AdvanceMeasure(s: State, m: Move)
    requires Inv(s) && Advances(s, m)
    ensures Measure(Next(s, m)) < Measure(s)
  {
    hide WorkerSteps, Poisons, Inv;
    match m
    case Take(t) =>
      FrontPoison(s.queue);
      WorkerGoes(s.workers, t, if s.queue[0].Poison? then Quitting else Running(|s.taken|));
    case Finish(t) => WorkerGoes(s.workers, t, Idle);
    case Announce(t) => WorkerGoes(s.workers, t, Ending);
    case End(t) => WorkerGoes(s.workers, t, Ended);
    case AddThread =>
      NewWorker(s);
      WorkerGoes(s.workers, s.nextId, Idle);
    case PostPoison => AppendPoisons(s.queue, Poison);
    case _ =>
  }

  lemma NewWorker(s: State)
    requires Inv(s)
    ensures s.nextId !in s.workers
  {
  }

  /** Without new posts every call returns: there are only so many steps before none can be made, and then it has. */
  lemma {:induction false} CallsReturn(s: State, ms: seq<Move>)
    requires Inv(s) && Possible(s, ms) && forall i | 0 <= i < |ms| :: !ms[i].Post? && !ms[i].SetMaxThread?
                                                                      && !ms[i].StopAllThread?
    ensures |ms| + Measure(After(s, ms)) <= Measure(s)
    ensures (forall m :: !Advances(After(s, ms), m)) ==> After(s, ms).control.Outside?
  {
    hide Inv, Next, Enabled, Measure;
    AlwaysInv(s, ms);
    if !After(s, ms).control.Outside? {
      var m := NeverStuck(After(s, ms));
    }
    if ms != [] {
      var past := ms[..|ms| - 1];
      assert forall i | 0 <= i < |past| :: past[i] == ms[i];
      CallsReturn(s, past);
      AlwaysInv(s, past);
      AdvanceMeasure(After(s, past), ms[|ms| - 1]);
    }
  }
}
